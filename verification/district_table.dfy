/** The district table of the admin dashboard: name canonicalisation, the
    state and district alias tables, the de-duplication of rows by
    `state|district`, the state drop-down and the search filter. */
module DistrictTable {
  import opened Wrappers
  import opened Text
  import opened Seqs
  import opened Records

  // ---------------------------------------------------------------- demand priority

  const DemandPriority: map<string, nat> :=
    map["High Demand" := 3, "Medium Demand" := 2, "Low Demand" := 1]

  /** `DEMAND_PRIORITY[demand] || 0`: an unknown label ranks 0. */
  function Priority(demand: string): (p: nat)
    ensures p <= 3
    ensures p == 0 <==> demand !in DemandPriority
  {
    if demand in DemandPriority then DemandPriority[demand] else 0
  }

  /** High outranks Medium, Medium outranks Low, Low outranks any other label. */
  lemma PriorityOrder(other: string)
    requires other !in DemandPriority
    ensures Priority("High Demand") > Priority("Medium Demand") > Priority("Low Demand") > Priority(other)
  {}

  // ---------------------------------------------------------------- canonicalize

  predicate IsDash(c: char) { c == '\U{2013}' || c == '\U{2014}' }

  /** `replace(/[–—]/g, "-")`: en and em dashes become hyphens. */
  function DashToHyphen(s: string): string {
    seq(|s|, i requires 0 <= i < |s| => if IsDash(s[i]) then '-' else s[i])
  }

  predicate HasNoDash(s: string) { forall i :: 0 <= i < |s| ==> !IsDash(s[i]) }

  /** The shape of every canonical key: lower case, no dashes, no standalone
      "and", single spaces only and nothing at either end. */
  predicate IsCanonicalKey(k: string) {
    HasNoUpper(k) && HasNoDash(k) && HasNoStandaloneAnd(k) && IsSpaced(k)
  }

  /** The steps after lower-casing. */
  function CanonicalizeLowered(s: string): string {
    Trim(CollapseSpaces(ReplaceAnd(DashToHyphen(s))))
  }

  /** `canonicalize`: lower-case, dashes to hyphens, standalone "and" to "&",
      whitespace runs to one space, then trim. */
  function Canonicalize(s: string): string {
    CanonicalizeLowered(Lower(s))
  }

  /** Every key `canonicalize` produces has the canonical shape. */
  lemma CanonicalizeIsCanonical(s: string)
    ensures IsCanonicalKey(Canonicalize(s))
  {
    var d := DashToHyphen(Lower(s));
    var a := ReplaceAnd(d);
    var c := CollapseSpaces(a);
    assert Canonicalize(s) == Trim(c);
    CanonicalCharsAreClean(s);
    assert HasNoStandaloneAnd(Trim(c)) by {
      ReplaceAndIsClean(d, false);
      CollapseKeepsNoAnd(a, false, false);
      TrimKeepsNoAnd(c);
    }
    assert IsSpaced(Trim(c)) by {
      TrimKeepsSingleSpaced(c);
    }
  }

  /** No upper-case letter and no dash survives canonicalisation. */
  lemma CanonicalCharsAreClean(s: string)
    ensures HasNoUpper(Canonicalize(s)) && HasNoDash(Canonicalize(s))
  {
    var l := Lower(s);
    var d := DashToHyphen(l);
    var a := ReplaceAnd(d);
    var c := CollapseSpaces(a);
    assert forall x :: x in d ==> !IsUpper(x) && !IsDash(x) by {
      LowerHasNoUpper(s);
      forall x | x in d ensures !IsUpper(x) && !IsDash(x) {
        var i :| 0 <= i < |d| && d[i] == x;
        assert d[i] == '-' || d[i] == l[i];
      }
    }
    assert forall x :: x in a ==> !IsUpper(x) && !IsDash(x) by {
      forall x | x in a ensures !IsUpper(x) && !IsDash(x) {
        var i :| 0 <= i < |a| && a[i] == x;
      }
    }
    assert forall x :: x in c ==> !IsUpper(x) && !IsDash(x) by {
      forall x | x in c ensures !IsUpper(x) && !IsDash(x) {
        var i :| 0 <= i < |c| && c[i] == x;
      }
    }
    TrimKeepsChars(c);
  }

  /** A string whose lowered, dash-free form is already clean is canonicalised
      by lower-casing and dash replacement alone. */
  lemma CanonicalizeOfClean(s: string)
    requires HasNoStandaloneAnd(DashToHyphen(Lower(s)))
    requires IsSpaced(DashToHyphen(Lower(s)))
    ensures Canonicalize(s) == DashToHyphen(Lower(s))
  {
    var d := DashToHyphen(Lower(s));
    assert Canonicalize(s) == Trim(CollapseSpaces(ReplaceAnd(d)));
    ReplaceAndOfClean(d, false);
    CollapseOfSingleSpaced(d, false);
    TrimOfTrimmed(d);
  }

  /** Canonical keys are fixpoints, so `canonicalize` is idempotent. */
  lemma CanonicalFixpoint(k: string)
    requires IsCanonicalKey(k)
    ensures Canonicalize(k) == k
  {
    LowerOfLowered(k);
    assert DashToHyphen(k) == k;
    CanonicalizeOfClean(k);
  }

  lemma CanonicalizeIdempotent(s: string)
    ensures Canonicalize(Canonicalize(s)) == Canonicalize(s)
  {
    CanonicalizeIsCanonical(s);
    CanonicalFixpoint(Canonicalize(s));
  }

  /** A canonical key never holds two adjacent spaces nor leading or trailing
      whitespace. */
  lemma CanonicalHasNoDoubleSpace(s: string)
    ensures !Contains(Canonicalize(s), "  ")
    ensures Canonicalize(s) == [] || (!IsSpace(Canonicalize(s)[0]) && !IsSpace(Canonicalize(s)[|Canonicalize(s)| - 1]))
  {
    CanonicalizeIsCanonical(s);
    SpacedHasNoDoubleSpace(Canonicalize(s));
  }

  /** The key is empty exactly when the input is blank. */
  lemma CanonicalizeEmptyIffBlank(s: string)
    ensures Canonicalize(s) == [] <==> Blank(s)
  {
    var l := Lower(s);
    var d := DashToHyphen(l);
    LowerKeepsBlank(s);
    assert Blank(d) <==> Blank(l) by {
      assert forall i :: 0 <= i < |l| ==> (IsSpace(d[i]) <==> IsSpace(l[i]));
    }
    ReplaceAndKeepsBlank(d, false);
    CollapseKeepsBlank(ReplaceAnd(d), false);
    TrimEmptyIffBlank(CollapseSpaces(ReplaceAnd(d)));
  }

  /** Upper-casing word starts does not change the key. */
  lemma CanonicalizeOfTitleCase(s: string)
    ensures Canonicalize(TitleCase(s)) == Canonicalize(s)
  {
    LowerOfTitleCase(s);
  }

  // ---------------------------------------------------------------- state names

  const StateMap: map<string, string> := map[
    "west bengal" := "West Bengal",
    "westbengal" := "West Bengal",
    "west bangal" := "West Bengal",
    "andhra pradesh" := "Andhra Pradesh",
    "telangana" := "Telangana",
    "odisha" := "Odisha",
    "orissa" := "Odisha",
    "pondicherry" := "Puducherry",
    "puducherry" := "Puducherry",
    "andaman & nicobar islands" := "Andaman & Nicobar Islands",
    "andaman and nicobar islands" := "Andaman & Nicobar Islands",
    "dadra & nagar haveli" := "Dadra & Nagar Haveli & Daman & Diu",
    "daman & diu" := "Dadra & Nagar Haveli & Daman & Diu",
    "dadra and nagar haveli and daman and diu" := "Dadra & Nagar Haveli & Daman & Diu"
  ]

  /** `STATE_MAP[key] || <key with word starts upper-cased>`. */
  function StateName(key: string): string {
    if key in StateMap then StateMap[key] else TitleCase(key)
  }

  /** `normalizeState`: nothing for a missing, empty or all-digit value;
      otherwise the alias table's name for the canonical key, or the key with
      each word's first letter upper-cased. */
  function NormalizeState(state: Option<string>): (r: Option<string>)
    ensures r.None? <==> state.None? || state.value == "" || AllDigits(state.value)
  {
    if state.None? || state.value == "" then None
    else if AllDigits(state.value) then None
    else Some(StateName(Canonicalize(state.value)))
  }

  /** A name is produced for every other value: the table's name for a
      listed key, otherwise the canonical key itself with the first letter of
      each word upper-cased and nothing else changed; it is empty exactly
      when the value is blank. */
  lemma NormalizeStateResult(s: string)
    requires s != "" && !AllDigits(s)
    ensures var r := NormalizeState(Some(s)).value;
            && (r == "" <==> Blank(s))
            && (Canonicalize(s) in StateMap ==> r == StateMap[Canonicalize(s)] && r in StateMap.Values)
            && (Canonicalize(s) !in StateMap ==>
                  && r == TitleCase(Canonicalize(s))
                  && Lower(r) == Canonicalize(s)
                  && |r| == |Canonicalize(s)|
                  && forall i :: 0 <= i < |r| ==>
                       if WordStartAt(Canonicalize(s), i) then !IsLowerLetter(r[i]) else r[i] == Canonicalize(s)[i])
  {
    var key := Canonicalize(s);
    var r := NormalizeState(Some(s)).value;
    assert r == StateName(key);
    CanonicalizeEmptyIffBlank(s);
    if key in StateMap {
      StateValuesNonEmpty();
      assert r == StateMap[key] && r != "" && key != "";
    } else {
      assert r == TitleCase(key) && |r| == |key|;
      TitleCaseMeans(key);
      assert Lower(r) == key by {
        CanonicalCharsAreClean(s);
        LowerOfTitleCase(key);
        LowerOfLowered(key);
      }
    }
  }

  lemma StateValuesNonEmpty()
    ensures forall k :: k in StateMap ==> k != "" && StateMap[k] != ""
  {}

  /** Re-normalising a name produced by the title-casing fallback gives it
      back, provided the key is not made of digits only (see
      `PaddedDigitsAccepted`). */
  lemma NormalizeStateIdempotent(s: Option<string>)
    requires NormalizeState(s).Some? && NormalizeState(s).value != ""
    requires Canonicalize(s.value) !in StateMap && !AllDigits(Canonicalize(s.value))
    ensures NormalizeState(NormalizeState(s)) == NormalizeState(s)
  {
    var key := Canonicalize(s.value);
    CanonicalizeIsCanonical(s.value);
    CanonicalizeOfTitleCase(key);
    CanonicalFixpoint(key);
    TitleCaseNotAllDigits(key);
  }

  /** A title-cased key is all digits only when the key is. */
  lemma TitleCaseNotAllDigits(k: string)
    ensures AllDigits(TitleCase(k)) <==> AllDigits(k)
  {
    assert forall i :: 0 <= i < |k| ==> (IsDigit(TitleCase(k)[i]) <==> IsDigit(k[i]));
  }

  /** A string of digits after one space is canonicalised to the digits. */
  lemma CanonicalizeOfPaddedDigits(d: string)
    requires AllDigits(d)
    ensures Canonicalize(" " + d) == d
  {
    var s := " " + d;
    PaddedDigitsClean(d);
    LowerOfLowered(s);
    ReplaceAndOfClean(s, false);
    CollapseOfSingleSpaced(s, false);
    assert Trim(s) == d by {
      assert s[1..] == d;
      assert TrimStart(s) == TrimStart(d);
      TrimOfTrimmed(d);
    }
  }

  lemma PaddedDigitsClean(d: string)
    requires AllDigits(d)
    ensures var s := " " + d;
            HasNoUpper(s) && DashToHyphen(s) == s && HasNoStandaloneAnd(s) && SingleSpaced(s)
  {
    var s := " " + d;
    assert forall i :: 0 < i < |s| ==> s[i] == d[i - 1];
    forall i: nat | i < |s| ensures !AndMatchAt(s, i) && !IsUpper(s[i]) && !IsDash(s[i]) {
      assert s[i] == ' ' || IsDigit(s[i]);
    }
    NoAndByPositions(s);
    forall i | 0 <= i < |s| - 1 ensures !(IsSpace(s[i]) && IsSpace(s[i + 1])) {
      assert IsDigit(s[i + 1]);
    }
  }

  /** The digit test looks at the raw value, before trimming: digits after a
      space pass it and come out as a state name made of digits, which itself
      would be rejected. */
  lemma PaddedDigitsAccepted(d: string)
    requires AllDigits(d)
    ensures NormalizeState(Some(" " + d)) == Some(d)
    ensures NormalizeState(Some(d)) == None
  {
    var s := " " + d;
    assert !IsDigit(s[0]);
    CanonicalizeOfPaddedDigits(d);
    StateNameOfDigits(d);
  }

  /** A key made of digits is not in the table and is its own name. */
  lemma StateNameOfDigits(d: string)
    requires AllDigits(d)
    ensures StateName(d) == d
  {
    StateKeysStartWithLetter();
    assert IsDigit(d[0]);
    assert TitleCase(d) == d;
  }

  lemma StateKeysStartWithLetter()
    ensures forall k :: k in StateMap ==> k != [] && IsLowerLetter(k[0])
  {}

  // ---------------------------------------------------------------- literal keys

  /** Position `i` of a key spelled only with lower-case letters, digits,
      `.`, `&`, `-` and single inner spaces. */
  predicate PlainAt(k: string, i: nat)
    requires i < |k|
  {
    var c := k[i];
    || 'a' <= c <= 'z' || '0' <= c <= '9' || c == '.' || c == '&' || c == '-'
    || (c == ' ' && 0 < i < |k| - 1 && k[i + 1] != ' ')
  }

  /** A key of plain characters with no standalone "and": cheap to check on a
      literal, and enough to be canonical. */
  predicate PlainKey(k: string) {
    forall i: nat :: i < |k| ==> PlainAt(k, i) && !AndMatchAt(k, i)
  }

  lemma PlainKeyIsCanonical(k: string)
    requires PlainKey(k)
    ensures IsCanonicalKey(k) && DashToHyphen(k) == k
  {
    NoAndByPositions(k);
    forall i | 0 <= i < |k| ensures !IsUpper(k[i]) && !IsDash(k[i]) && (IsSpace(k[i]) ==> k[i] == ' ') {
      assert PlainAt(k, i);
    }
    forall i | 0 <= i < |k| - 1 ensures !(IsSpace(k[i]) && IsSpace(k[i + 1])) {
      assert PlainAt(k, i) && PlainAt(k, i + 1);
    }
    if k != [] {
      assert PlainAt(k, 0) && PlainAt(k, |k| - 1);
    }
    assert DashToHyphen(k) == k;
  }

  /** Canonicalisation of a value whose lowered, dash-free form is a plain key. */
  lemma CleanKey(s: string, k: string)
    requires DashToHyphen(Lower(s)) == k && PlainKey(k)
    ensures Canonicalize(s) == k
  {
    PlainKeyIsCanonical(k);
    CanonicalizeOfClean(s);
  }

  /** A value that lower-cases to a plain key starting with a letter has that
      key, and its state name is the table's name for the key. */
  lemma StateOfPlainKey(s: string, k: string)
    requires Lower(s) == k && PlainKey(k) && k != [] && IsLowerLetter(k[0])
    ensures Canonicalize(s) == k
    ensures NormalizeState(Some(s)) == Some(StateName(k))
  {
    PlainKeyIsCanonical(k);
    CleanKey(s, k);
    assert LowerChar(s[0]) == k[0];
  }

  lemma PlainAliasKeys()
    ensures PlainKey("orissa") && PlainKey("odisha")
    ensures PlainKey("west bangal") && PlainKey("westbengal")
  {}

  /** Aliases converge: "orissa" and "odisha" name "Odisha"; "west bangal",
      "westbengal" and "west bengal" name "West Bengal"; an unlisted key such as
      "kerala" is title-cased. */
  lemma StateAliases()
    ensures StateName("orissa") == StateName("odisha") == "Odisha"
    ensures StateName("west bangal") == StateName("westbengal") == StateName("west bengal") == "West Bengal"
    ensures StateName("kerala") == "Kerala"
  {}

  /** So "Orissa" and "ODISHA" normalise alike. */
  lemma AliasesConverge(a: string, b: string)
    requires Lower(a) == "orissa" && Lower(b) == "odisha"
    ensures NormalizeState(Some(a)) == NormalizeState(Some(b)) == Some("Odisha")
  {
    PlainAliasKeys();
    StateOfPlainKey(a, "orissa");
    StateOfPlainKey(b, "odisha");
    StateAliases();
  }

  /** And so do "West Bangal" and "WestBengal". */
  lemma BengalAliasesConverge(a: string, b: string)
    requires Lower(a) == "west bangal" && Lower(b) == "westbengal"
    ensures NormalizeState(Some(a)) == NormalizeState(Some(b)) == Some("West Bengal")
  {
    PlainAliasKeys();
    StateOfPlainKey(a, "west bangal");
    StateOfPlainKey(b, "westbengal");
    StateAliases();
  }

  /** Digit-only values and empty values are rejected. */
  lemma StateRejections()
    ensures NormalizeState(Some("123")) == None
    ensures NormalizeState(Some("")) == None
    ensures NormalizeState(None) == None
  {
    assert AllDigits("123");
  }

  /** No key free of standalone "and" equals either table key spelled with it. */
  lemma AndamanKeyUnmatched(k: string)
    requires HasNoStandaloneAnd(k)
    ensures k != "andaman and nicobar islands"
  {
    assert AndMatchAt("andaman and nicobar islands", 8);
    if |k| > 8 {
      HasNoStandaloneAndMeans(k);
      assert !StandaloneAndAt(k, 8);
      AndMatchAtMeans(k, 8);
    }
  }

  lemma DadraKeyUnmatched(k: string)
    requires HasNoStandaloneAnd(k)
    ensures k != "dadra and nagar haveli and daman and diu"
  {
    assert AndMatchAt("dadra and nagar haveli and daman and diu", 6);
    if |k| > 6 {
      HasNoStandaloneAndMeans(k);
      assert !StandaloneAndAt(k, 6);
      AndMatchAtMeans(k, 6);
    }
  }

  /** The two table keys spelled with "and" can never be looked up, because
      every key has had its standalone "and" turned into "&". */
  lemma StateMapDeadKeys(s: string)
    ensures Canonicalize(s) != "andaman and nicobar islands"
    ensures Canonicalize(s) != "dadra and nagar haveli and daman and diu"
  {
    CanonicalizeIsCanonical(s);
    AndamanKeyUnmatched(Canonicalize(s));
    DadraKeyUnmatched(Canonicalize(s));
  }

  // ---------------------------------------------------------------- district names

  const DistrictMap: map<string, string> := map[
    "karim nagar" := "Karimnagar",
    "karimnagar" := "Karimnagar",
    "k.v rangareddy" := "K.V. Rangareddy",
    "k.v.rangareddy" := "K.V. Rangareddy",
    "rangareddi" := "K.V. Rangareddy",
    "mahabubnagar" := "Mahabubnagar",
    "mahbubnagar" := "Mahabubnagar",
    "spsr nellore" := "SPSR Nellore",
    "sri potti sriramulu nellore" := "SPSR Nellore",
    "visakhapatnam" := "Visakhapatnam",
    "medchal-malkajgiri" := "Medchal\U{2013}Malkajgiri",
    "medchal malkajgiri" := "Medchal\U{2013}Malkajgiri",
    "medchal?malkajgiri" := "Medchal\U{2013}Malkajgiri",
    "warangal urban" := "Warangal Urban",
    "warangal rural" := "Warangal Rural",
    "jangaon" := "Jangaon",
    "hooghly" := "Hooghly",
    "hugli" := "Hooghly",
    "barddhaman" := "Bardhaman",
    "purba bardhaman" := "Bardhaman",
    "paschim bardhaman" := "Bardhaman",
    "darjeeling" := "Darjeeling",
    "darjiling" := "Darjeeling",
    "north 24 parganas" := "North 24 Parganas",
    "north twenty four parganas" := "North 24 Parganas",
    "south 24 pargana" := "South 24 Parganas",
    "south 24 parganas" := "South 24 Parganas",
    "south twenty four parganas" := "South 24 Parganas",
    "malda" := "Malda",
    "maldah" := "Malda",
    "medinipur" := "Medinipur",
    "midnapore" := "Medinipur",
    "east midnapore" := "East Medinipur",
    "east midnapur" := "East Medinipur",
    "west midnapore" := "West Medinipur",
    "kolkata" := "Kolkata",
    "calcutta" := "Kolkata",
    "nadia" := "Nadia"
  ]

  /** `(DISTRICT_MAP[key] || key)` with word starts upper-cased. */
  function DistrictName(key: string): string {
    TitleCase(if key in DistrictMap then DistrictMap[key] else key)
  }

  /** `normalizeDistrict`: nothing for a missing or empty value; otherwise the
      alias table's name for the canonical key (or the key itself), with each
      word's first letter upper-cased. */
  function NormalizeDistrict(district: Option<string>): (r: Option<string>)
    ensures r.None? <==> district.None? || district.value == ""
  {
    if district.None? || district.value == "" then None
    else Some(DistrictName(Canonicalize(district.value)))
  }

  /** The name is empty exactly when the value is blank; a mapped key gives
      the table's name with word starts upper-cased, which is that name
      itself; an unmapped key comes back as itself with the first letter of
      each word upper-cased and nothing else changed. */
  lemma NormalizeDistrictResult(s: string)
    requires s != ""
    ensures var r := NormalizeDistrict(Some(s)).value;
            && (r == "" <==> Blank(s))
            && (Canonicalize(s) in DistrictMap ==>
                  r == TitleCase(DistrictMap[Canonicalize(s)]) && r == DistrictMap[Canonicalize(s)])
            && (Canonicalize(s) !in DistrictMap ==>
                  && r == TitleCase(Canonicalize(s))
                  && Lower(r) == Canonicalize(s)
                  && |r| == |Canonicalize(s)|
                  && forall i :: 0 <= i < |r| ==>
                       if WordStartAt(Canonicalize(s), i) then !IsLowerLetter(r[i]) else r[i] == Canonicalize(s)[i])
  {
    var key := Canonicalize(s);
    var r := NormalizeDistrict(Some(s)).value;
    CanonicalizeEmptyIffBlank(s);
    if key in DistrictMap {
      DistrictKeysNonEmpty();
      DistrictValuesAreTitleCase(key);
      assert r == TitleCase(DistrictMap[key]) && |r| == |DistrictMap[key]|;
      assert r != "" && key != "";
    } else {
      assert r == TitleCase(key) && |r| == |key|;
      TitleCaseMeans(key);
      assert Lower(r) == key by {
        CanonicalCharsAreClean(s);
        LowerOfTitleCase(key);
        LowerOfLowered(key);
      }
    }
  }

  lemma DistrictKeysNonEmpty()
    ensures forall k :: k in DistrictMap ==> k != "" && DistrictMap[k] != ""
  {}

  /** The names the district table produces. */
  const DistrictNames: seq<string> := [
    "Karimnagar", "K.V. Rangareddy", "Mahabubnagar", "SPSR Nellore", "Visakhapatnam",
    "Medchal\U{2013}Malkajgiri", "Warangal Urban", "Warangal Rural", "Jangaon", "Hooghly",
    "Bardhaman", "Darjeeling", "North 24 Parganas", "South 24 Parganas", "Malda",
    "Medinipur", "East Medinipur", "West Medinipur", "Kolkata", "Nadia"
  ]

  lemma DistrictValuesListed()
    ensures forall k :: k in DistrictMap ==> DistrictMap[k] in DistrictNames
  {}

  lemma DistrictNamesTitleCasedA()
    ensures forall i :: 0 <= i < 5 ==> TitleCase(DistrictNames[i]) == DistrictNames[i]
  {}

  lemma DistrictNamesTitleCasedB()
    ensures forall i :: 5 <= i < 10 ==> TitleCase(DistrictNames[i]) == DistrictNames[i]
  {}

  lemma DistrictNamesTitleCasedC()
    ensures forall i :: 10 <= i < 15 ==> TitleCase(DistrictNames[i]) == DistrictNames[i]
  {}

  lemma DistrictNamesTitleCasedD()
    ensures forall i :: 15 <= i < 20 ==> TitleCase(DistrictNames[i]) == DistrictNames[i]
  {}

  /** Every name of the district table is left alone by the capitalisation step. */
  lemma DistrictValuesAreTitleCase(key: string)
    requires key in DistrictMap
    ensures TitleCase(DistrictMap[key]) == DistrictMap[key]
  {
    DistrictValuesListed();
    DistrictNamesTitleCasedA();
    DistrictNamesTitleCasedB();
    DistrictNamesTitleCasedC();
    DistrictNamesTitleCasedD();
  }

  /** The table name `v` canonicalises to a key that leads back to `v`. */
  predicate LeadsBack(v: string) {
    NormalizeDistrict(Some(v)) == Some(v)
  }

  /** Re-normalising a normalised district name gives it back: always for a
      name made by title-casing the key, and for a table name whenever that
      name leads back to itself. */
  lemma NormalizeDistrictIdempotent(d: Option<string>)
    requires NormalizeDistrict(d).Some? && NormalizeDistrict(d).value != ""
    requires Canonicalize(d.value) in DistrictMap ==> LeadsBack(DistrictMap[Canonicalize(d.value)])
    ensures NormalizeDistrict(NormalizeDistrict(d)) == NormalizeDistrict(d)
  {
    var key := Canonicalize(d.value);
    if key in DistrictMap {
      DistrictValuesAreTitleCase(key);
    } else {
      CanonicalizeIsCanonical(d.value);
      CanonicalizeOfTitleCase(key);
      CanonicalFixpoint(key);
      TitleCaseIdempotent(key);
    }
  }

  // ---------------------------------------------------------------- clean and de-duplicate

  /** How the stored row is ranked when a second row arrives for its key:
      `AsWritten` looks its demand label up untrimmed, as the component
      does; `Corrected` trims it first, as it does for the newcomer. */
  datatype Mode = AsWritten | Corrected

  /** The two name normalisers the de-duplication applies. The properties of
      the de-duplication below hold whatever they are; the component uses
      `Component`. */
  datatype Namers = Namers(state: Option<string> -> Option<string>, district: Option<string> -> Option<string>)

  const Component: Namers := Namers(NormalizeState, NormalizeDistrict)

  /** `row.Next_Month_Demand?.trim()`. */
  function Demand(row: DistrictRow): Option<string> {
    if row.demand.Some? then Some(Trim(row.demand.value)) else None
  }

  /** A row takes part when its state name, district name and trimmed demand
      label are all present and non-empty. */
  predicate Kept(row: DistrictRow, nm: Namers) {
    && nm.state(row.state).Some? && nm.state(row.state).value != ""
    && nm.district(row.district).Some? && nm.district(row.district).value != ""
    && Demand(row).Some? && Demand(row).value != ""
  }

  /** `${state}|${district}` over the normalised names. */
  function RowKey(row: DistrictRow, nm: Namers): string
    requires Kept(row, nm)
  {
    nm.state(row.state).value + "|" + nm.district(row.district).value
  }

  predicate HasKey(row: DistrictRow, nm: Namers, k: string) {
    Kept(row, nm) && RowKey(row, nm) == k
  }

  /** `{ ...row, state, district }`: every field kept, names replaced. */
  function Cleaned(row: DistrictRow, nm: Namers): DistrictRow
    requires Kept(row, nm)
  {
    row.(state := nm.state(row.state), district := nm.district(row.district))
  }

  /** The priority of an arriving row, from its trimmed label. */
  function NewRank(row: DistrictRow): nat {
    Priority(Demand(row).GetOr(""))
  }

  /** The priority of the row already stored for the key. */
  function StoredRank(stored: DistrictRow, mode: Mode): nat {
    var tag := stored.demand.GetOr("");
    Priority(if mode == AsWritten then tag else Trim(tag))
  }

  /** The `Map` being filled: its keys in insertion order, and the row per key. */
  datatype Table = Table(order: seq<string>, rows: map<string, DistrictRow>)

  ghost predicate Valid(t: Table) {
    NoDups(t.order) && forall k :: k in t.rows <==> k in t.order
  }

  /** One call of the `forEach` callback: skip the row, insert it under a new
      key, or replace the stored row when the newcomer ranks strictly higher. */
  function Step(t: Table, row: DistrictRow, mode: Mode, nm: Namers): Table {
    if !Kept(row, nm) then t
    else
      var key := RowKey(row, nm);
      if key !in t.rows then Table(t.order + [key], t.rows[key := Cleaned(row, nm)])
      else if NewRank(row) > StoredRank(t.rows[key], mode) then Table(t.order, t.rows[key := Cleaned(row, nm)])
      else t
  }

  lemma StepValid(t: Table, row: DistrictRow, mode: Mode, nm: Namers)
    requires Valid(t)
    ensures Valid(Step(t, row, mode, nm))
  {
    if Kept(row, nm) && RowKey(row, nm) !in t.rows {
      AppendFresh(t.order, RowKey(row, nm));
    }
  }

  /** The map after the callback has run over all of `data`. */
  function Dedup(data: seq<DistrictRow>, mode: Mode, nm: Namers): Table {
    if data == [] then Table([], map[])
    else Step(Dedup(data[..|data| - 1], mode, nm), data[|data| - 1], mode, nm)
  }

  /** The map holds exactly the listed keys, each listed once. */
  lemma {:induction false} DedupValid(data: seq<DistrictRow>, mode: Mode, nm: Namers)
    ensures Valid(Dedup(data, mode, nm))
  {
    if data != [] {
      DedupValid(data[..|data| - 1], mode, nm);
      StepValid(Dedup(data[..|data| - 1], mode, nm), data[|data| - 1], mode, nm);
    }
  }

  /** `Array.from(map.values())`: the stored rows in key insertion order. */
  function Listing(t: Table): (rows: seq<DistrictRow>)
    requires forall i :: 0 <= i < |t.order| ==> t.order[i] in t.rows
    ensures |rows| == |t.order|
  {
    seq(|t.order|, i requires 0 <= i < |t.order| => t.rows[t.order[i]])
  }

  /** The `forEach` callback on one row: the map after it is `Step` of the
      map before it. */
  method Absorb(order: seq<string>, m: map<string, DistrictRow>, row: DistrictRow, mode: Mode, nm: Namers)
    returns (order': seq<string>, m': map<string, DistrictRow>)
    ensures Table(order', m') == Step(Table(order, m), row, mode, nm)
  {
    order', m' := order, m;
    var state := nm.state(row.state);
    var district := nm.district(row.district);
    var demand := if row.demand.Some? then Some(Trim(row.demand.value)) else None;
    if state.Some? && state.value != "" && district.Some? && district.value != ""
       && demand.Some? && demand.value != ""
    {
      var key := state.value + "|" + district.value;
      var priority := Priority(demand.value);
      var cleaned := row.(state := state, district := district);
      assert Kept(row, nm) && key == RowKey(row, nm) && cleaned == Cleaned(row, nm) && priority == NewRank(row);
      if key !in m {
        StepFresh(Table(order, m), row, mode, nm);
        order' := order + [key];
        m' := m[key := cleaned];
      } else {
        var tag := m[key].demand.GetOr("");
        var existingPriority := Priority(if mode == AsWritten then tag else Trim(tag));
        assert existingPriority == StoredRank(m[key], mode);
        if priority > existingPriority {
          StepOutranks(Table(order, m), row, mode, nm);
          m' := m[key := cleaned];
        } else {
          StepOutranked(Table(order, m), row, mode, nm);
        }
      }
    } else {
      StepSkips(Table(order, m), row, mode, nm);
    }
  }

  /** `cleanedData`: one pass over the rows, filling a map keyed by
      `state|district`, then its values in insertion order. The component
      runs it with `nm == Component`. */
  method CleanData(data: seq<DistrictRow>, mode: Mode, nm: Namers) returns (rows: seq<DistrictRow>)
    ensures Valid(Dedup(data, mode, nm)) && rows == Listing(Dedup(data, mode, nm))
  {
    var order: seq<string> := [];
    var m: map<string, DistrictRow> := map[];
    var i := 0;
    while i < |data|
      invariant i <= |data|
      invariant Dedup(data[..i], mode, nm) == Table(order, m)
    {
      DedupSnoc(data[..i], data[i], mode, nm);
      assert data[..i + 1] == data[..i] + [data[i]];
      order, m := Absorb(order, m, data[i], mode, nm);
      i := i + 1;
    }
    assert data[..i] == data;
    DedupValid(data, mode, nm);
    rows := Listing(Table(order, m));
  }

  /** The keys of the kept rows, one per kept row, in input order. */
  function Keys(data: seq<DistrictRow>, nm: Namers): (ks: seq<string>)
    ensures |ks| <= |data|
  {
    if data == [] then []
    else
      var last := data[|data| - 1];
      Keys(data[..|data| - 1], nm) + (if Kept(last, nm) then [RowKey(last, nm)] else [])
  }

  /** Every listed key comes from a kept row. */
  lemma {:induction false} KeysSound(data: seq<DistrictRow>, nm: Namers, k: string) returns (j: nat)
    requires k in Keys(data, nm)
    ensures j < |data| && HasKey(data[j], nm, k)
  {
    var p := data[..|data| - 1];
    var x := data[|data| - 1];
    assert Keys(data, nm) == Keys(p, nm) + (if Kept(x, nm) then [RowKey(x, nm)] else []);
    if k in Keys(p, nm) {
      j := KeysSound(p, nm, k);
      assert data[j] == p[j];
    } else {
      j := |data| - 1;
    }
  }

  /** Every kept row's key is listed. */
  lemma {:induction false} KeysComplete(data: seq<DistrictRow>, nm: Namers, j: nat) returns (a: nat)
    requires j < |data| && Kept(data[j], nm)
    ensures a < |Keys(data, nm)| && Keys(data, nm)[a] == RowKey(data[j], nm)
  {
    var p := data[..|data| - 1];
    var x := data[|data| - 1];
    if j < |p| {
      assert data[j] == p[j];
      var b := KeysComplete(p, nm, j);
      a := b;
      KeysGrow(data, nm, b);
    } else {
      a := |Keys(p, nm)|;
      KeysLast(data, nm);
    }
  }

  /** Keys already listed for a prefix keep their place. */
  lemma KeysGrow(data: seq<DistrictRow>, nm: Namers, b: nat)
    requires data != [] && b < |Keys(data[..|data| - 1], nm)|
    ensures b < |Keys(data, nm)| && Keys(data, nm)[b] == Keys(data[..|data| - 1], nm)[b]
  {}

  /** A kept last row lists its key last. */
  lemma KeysLast(data: seq<DistrictRow>, nm: Namers)
    requires data != [] && Kept(data[|data| - 1], nm)
    ensures |Keys(data[..|data| - 1], nm)| < |Keys(data, nm)|
    ensures Keys(data, nm)[|Keys(data[..|data| - 1], nm)|] == RowKey(data[|data| - 1], nm)
  {}

  lemma KeysMeans(data: seq<DistrictRow>, nm: Namers, k: string)
    ensures k in Keys(data, nm) <==> exists j :: 0 <= j < |data| && HasKey(data[j], nm, k)
  {
    if k in Keys(data, nm) {
      var j := KeysSound(data, nm, k);
    }
    if exists j :: 0 <= j < |data| && HasKey(data[j], nm, k) {
      var j :| 0 <= j < |data| && HasKey(data[j], nm, k);
      var a := KeysComplete(data, nm, j);
    }
  }

  /** The listing holds one row per distinct key, keys in order of first
      appearance: a replacement never moves a key. */
  lemma {:induction false} DedupOrder(data: seq<DistrictRow>, mode: Mode, nm: Namers)
    ensures Dedup(data, mode, nm).order == Distinct(Keys(data, nm))
  {
    if data != [] {
      var p := data[..|data| - 1];
      var x := data[|data| - 1];
      DedupOrder(p, mode, nm);
      DedupValid(p, mode, nm);
      assert Dedup(data, mode, nm) == Step(Dedup(p, mode, nm), x, mode, nm);
      if Kept(x, nm) {
        var key := RowKey(x, nm);
        var ks := Keys(p, nm) + [key];
        assert Keys(data, nm) == ks;
        assert ks[..|ks| - 1] == Keys(p, nm) && ks[|ks| - 1] == key;
        var d := Distinct(Keys(p, nm));
        assert key in Dedup(p, mode, nm).rows <==> key in d;
        assert Distinct(ks) == if key in d then d else d + [key];
      } else {
        assert Keys(data, nm) == Keys(p, nm);
      }
    }
  }

  /** A key is in the map exactly when some kept row has it. */
  lemma DedupHasKey(data: seq<DistrictRow>, mode: Mode, nm: Namers, k: string)
    ensures k in Dedup(data, mode, nm).rows <==> exists j :: 0 <= j < |data| && HasKey(data[j], nm, k)
  {
    DedupValid(data, mode, nm);
    DedupOrder(data, mode, nm);
    KeysMeans(data, nm, k);
  }

  /** Row `j` is the one to keep for key `k`: it has the key, no row with the
      key ranks higher, and every earlier row with the key ranks lower. */
  ghost predicate Winner(data: seq<DistrictRow>, nm: Namers, k: string, j: int) {
    && 0 <= j < |data| && HasKey(data[j], nm, k)
    && (forall i :: 0 <= i < |data| && HasKey(data[i], nm, k) ==> NewRank(data[i]) <= NewRank(data[j]))
    && (forall i :: 0 <= i < j && HasKey(data[i], nm, k) ==> NewRank(data[i]) < NewRank(data[j]))
  }

  /** A row with another key, or none, leaves the entry for `k` alone. */
  lemma StepElsewhere(t: Table, row: DistrictRow, mode: Mode, nm: Namers, k: string)
    requires !HasKey(row, nm, k)
    ensures k in Step(t, row, mode, nm).rows <==> k in t.rows
    ensures k in t.rows ==> Step(t, row, mode, nm).rows[k] == t.rows[k]
  {
    if Kept(row, nm) {
      assert RowKey(row, nm) != k;
    }
  }

  /** A winner stays the winner when a row arrives that does not outrank it. */
  lemma WinnerStays(p: seq<DistrictRow>, x: DistrictRow, nm: Namers, k: string, j: int)
    requires Winner(p, nm, k, j)
    requires HasKey(x, nm, k) ==> NewRank(x) <= NewRank(p[j])
    ensures Winner(p + [x], nm, k, j)
  {
    var data := p + [x];
    forall i | 0 <= i < |data| && HasKey(data[i], nm, k)
      ensures NewRank(data[i]) <= NewRank(data[j])
    {
      if i < |p| {
        assert data[i] == p[i];
      }
    }
    forall i | 0 <= i < j && HasKey(data[i], nm, k)
      ensures NewRank(data[i]) < NewRank(data[j])
    {
      assert data[i] == p[i];
    }
  }

  /** A row that outranks every earlier row with its key becomes the winner. */
  lemma WinnerArrives(p: seq<DistrictRow>, x: DistrictRow, nm: Namers, k: string)
    requires HasKey(x, nm, k)
    requires forall i :: 0 <= i < |p| && HasKey(p[i], nm, k) ==> NewRank(p[i]) < NewRank(x)
    ensures Winner(p + [x], nm, k, |p|)
  {
    var data := p + [x];
    forall i | 0 <= i < |data| && HasKey(data[i], nm, k)
      ensures NewRank(data[i]) <= NewRank(x)
    {
      if i < |p| {
        assert data[i] == p[i];
      }
    }
  }

  lemma DedupSnoc(p: seq<DistrictRow>, x: DistrictRow, mode: Mode, nm: Namers)
    ensures Dedup(p + [x], mode, nm) == Step(Dedup(p, mode, nm), x, mode, nm)
  {
    assert (p + [x])[..|p|] == p;
  }

  /** The first row with a key is stored and is the winner so far. */
  lemma WinnerFresh(p: seq<DistrictRow>, x: DistrictRow, nm: Namers, k: string)
    requires HasKey(x, nm, k) && k !in Dedup(p, Corrected, nm).rows
    ensures Winner(p + [x], nm, k, |p|)
    ensures k in Dedup(p + [x], Corrected, nm).rows && Dedup(p + [x], Corrected, nm).rows[k] == Cleaned(x, nm)
  {
    DedupHasKey(p, Corrected, nm, k);
    WinnerArrives(p, x, nm, k);
    DedupSnoc(p, x, Corrected, nm);
  }

  /** A row arriving after the stored winner `j0` either outranks it and is
      stored, or leaves the winner in place. */
  lemma WinnerNext(p: seq<DistrictRow>, x: DistrictRow, nm: Namers, k: string, j0: nat) returns (j: nat)
    requires Winner(p, nm, k, j0)
    requires k in Dedup(p, Corrected, nm).rows && Dedup(p, Corrected, nm).rows[k] == Cleaned(p[j0], nm)
    ensures Winner(p + [x], nm, k, j)
    ensures k in Dedup(p + [x], Corrected, nm).rows && Dedup(p + [x], Corrected, nm).rows[k] == Cleaned((p + [x])[j], nm)
  {
    var tp := Dedup(p, Corrected, nm);
    DedupSnoc(p, x, Corrected, nm);
    assert StoredRank(tp.rows[k], Corrected) == NewRank(p[j0]);
    if HasKey(x, nm, k) && NewRank(x) > NewRank(p[j0]) {
      WinnerArrives(p, x, nm, k);
      j := |p|;
    } else {
      WinnerStays(p, x, nm, k, j0);
      if !HasKey(x, nm, k) {
        StepElsewhere(tp, x, Corrected, nm, k);
      }
      j := j0;
    }
  }

  /** The row the corrected ranking stores for `k`, as an index into the input. */
  lemma {:induction false} HighestRow(data: seq<DistrictRow>, nm: Namers, k: string) returns (j: nat)
    requires k in Dedup(data, Corrected, nm).rows
    ensures Winner(data, nm, k, j) && Dedup(data, Corrected, nm).rows[k] == Cleaned(data[j], nm)
  {
    var n := |data|;
    var p := data[..n - 1];
    var x := data[n - 1];
    assert data == p + [x];
    DedupSnoc(p, x, Corrected, nm);
    if HasKey(x, nm, k) && k !in Dedup(p, Corrected, nm).rows {
      WinnerFresh(p, x, nm, k);
      j := n - 1;
    } else {
      assert k in Dedup(p, Corrected, nm).rows;
      var j0 := HighestRow(p, nm, k);
      j := WinnerNext(p, x, nm, k, j0);
    }
  }

  /** With the stored label trimmed as well, each key keeps its
      highest-ranked row, the first one among equals. */
  lemma DedupKeepsHighest(data: seq<DistrictRow>, nm: Namers, k: string)
    requires k in Dedup(data, Corrected, nm).rows
    ensures exists j :: Winner(data, nm, k, j) && Dedup(data, Corrected, nm).rows[k] == Cleaned(data[j], nm)
  {
    var j := HighestRow(data, nm, k);
  }

  /** The input row stored for `k`, as an index into the input. */
  lemma {:induction false} StoredRow(data: seq<DistrictRow>, mode: Mode, nm: Namers, k: string) returns (j: nat)
    requires k in Dedup(data, mode, nm).rows
    ensures j < |data| && HasKey(data[j], nm, k) && Dedup(data, mode, nm).rows[k] == Cleaned(data[j], nm)
  {
    var n := |data|;
    var p := data[..n - 1];
    var x := data[n - 1];
    var t := Dedup(p, mode, nm);
    assert Dedup(data, mode, nm) == Step(t, x, mode, nm);
    StepStored(t, x, mode, nm, k);
    if HasKey(x, nm, k) && Step(t, x, mode, nm).rows[k] == Cleaned(x, nm) {
      j := n - 1;
    } else {
      j := StoredRow(p, mode, nm, k);
      assert p[j] == data[j];
    }
  }

  /** After one step, a key holds either the arriving row or what it held before. */
  lemma StepStored(t: Table, x: DistrictRow, mode: Mode, nm: Namers, k: string)
    requires k in Step(t, x, mode, nm).rows
    ensures || (HasKey(x, nm, k) && Step(t, x, mode, nm).rows[k] == Cleaned(x, nm))
            || (k in t.rows && Step(t, x, mode, nm).rows[k] == t.rows[k])
  {}

  /** Every stored row is the cleaned copy of an input row with its key. */
  lemma StoredRowOrigin(data: seq<DistrictRow>, mode: Mode, nm: Namers, k: string)
    requires k in Dedup(data, mode, nm).rows
    ensures exists j :: 0 <= j < |data| && HasKey(data[j], nm, k) && Dedup(data, mode, nm).rows[k] == Cleaned(data[j], nm)
  {
    var j := StoredRow(data, mode, nm, k);
  }

  /** When no demand label carries surrounding white space, the component's
      ranking and the corrected one keep the same rows. */
  lemma {:induction false} ModesAgreeOnTrimmedLabels(data: seq<DistrictRow>, nm: Namers)
    requires forall j :: 0 <= j < |data| && data[j].demand.Some? ==> Trim(data[j].demand.value) == data[j].demand.value
    ensures Dedup(data, AsWritten, nm) == Dedup(data, Corrected, nm)
  {
    if data != [] {
      var p := data[..|data| - 1];
      var x := data[|data| - 1];
      assert forall j :: 0 <= j < |p| ==> p[j] == data[j];
      ModesAgreeOnTrimmedLabels(p, nm);
      var t := Dedup(p, Corrected, nm);
      assert Dedup(data, AsWritten, nm) == Step(t, x, AsWritten, nm);
      assert Dedup(data, Corrected, nm) == Step(t, x, Corrected, nm);
      if Kept(x, nm) && RowKey(x, nm) in t.rows {
        var key := RowKey(x, nm);
        var j := StoredRow(p, Corrected, nm, key);
        assert StoredRank(t.rows[key], AsWritten) == StoredRank(t.rows[key], Corrected);
      }
    }
  }

  /** The component keeps a row exactly when its state is present, not blank
      and not all digits, its district is present and not blank, and its
      demand label is present and not blank. */
  lemma ComponentKeeps(row: DistrictRow)
    ensures Kept(row, Component) <==>
      && row.state.Some? && !Blank(row.state.value) && !AllDigits(row.state.value)
      && row.district.Some? && !Blank(row.district.value)
      && row.demand.Some? && !Blank(row.demand.value)
  {
    StateNamed(row.state);
    DistrictNamed(row.district);
    if row.demand.Some? {
      TrimEmptyIffBlank(row.demand.value);
    }
  }

  lemma StateNamed(s: Option<string>)
    ensures (NormalizeState(s).Some? && NormalizeState(s).value != "") <==>
            s.Some? && !Blank(s.value) && !AllDigits(s.value)
  {
    if s.Some? && s.value != "" && !AllDigits(s.value) {
      NormalizeStateResult(s.value);
    }
  }

  lemma DistrictNamed(s: Option<string>)
    ensures (NormalizeDistrict(s).Some? && NormalizeDistrict(s).value != "") <==>
            s.Some? && !Blank(s.value)
  {
    if s.Some? && s.value != "" {
      NormalizeDistrictResult(s.value);
    }
  }

  /** A single row taking part is stored under its key. */
  lemma OneRow(a: DistrictRow, mode: Mode, nm: Namers)
    requires Kept(a, nm)
    ensures Dedup([a], mode, nm) == Table([RowKey(a, nm)], map[RowKey(a, nm) := Cleaned(a, nm)])
  {
    var empty: seq<string> := [];
    assert empty + [RowKey(a, nm)] == [RowKey(a, nm)];
    assert [a][..0] == [];
  }

  lemma SecondRow(a: DistrictRow, b: DistrictRow, mode: Mode, nm: Namers)
    requires Kept(a, nm)
    ensures Dedup([a, b], mode, nm) == Step(Table([RowKey(a, nm)], map[RowKey(a, nm) := Cleaned(a, nm)]), b, mode, nm)
  {
    assert [a, b][..1] == [a];
    OneRow(a, mode, nm);
  }

  /** A row whose key is new is stored under it, the key listed last. */
  lemma StepFresh(t: Table, b: DistrictRow, mode: Mode, nm: Namers)
    requires Kept(b, nm) && RowKey(b, nm) !in t.rows
    ensures Step(t, b, mode, nm) == Table(t.order + [RowKey(b, nm)], t.rows[RowKey(b, nm) := Cleaned(b, nm)])
  {}

  /** A row that does not take part changes nothing. */
  lemma StepSkips(t: Table, b: DistrictRow, mode: Mode, nm: Namers)
    requires !Kept(b, nm)
    ensures Step(t, b, mode, nm) == t
  {}

  /** A row outranking the stored row for its key replaces it, in place. */
  lemma StepOutranks(t: Table, b: DistrictRow, mode: Mode, nm: Namers)
    requires Kept(b, nm) && RowKey(b, nm) in t.rows && NewRank(b) > StoredRank(t.rows[RowKey(b, nm)], mode)
    ensures Step(t, b, mode, nm) == Table(t.order, t.rows[RowKey(b, nm) := Cleaned(b, nm)])
  {}

  /** A row not outranking the stored row for its key changes nothing. */
  lemma StepOutranked(t: Table, b: DistrictRow, mode: Mode, nm: Namers)
    requires Kept(b, nm) && RowKey(b, nm) in t.rows && NewRank(b) <= StoredRank(t.rows[RowKey(b, nm)], mode)
    ensures Step(t, b, mode, nm) == t
  {}

  lemma SingletonUpdate<K, V>(k: K, v: V, w: V)
    ensures map[k := v][k := w] == map[k := w]
  {
    assert map[k := v][k := w].Keys == map[k := w].Keys;
  }

  lemma StepReplaces(c: DistrictRow, b: DistrictRow, mode: Mode, nm: Namers)
    requires Kept(b, nm) && NewRank(b) > StoredRank(c, mode)
    ensures Step(Table([RowKey(b, nm)], map[RowKey(b, nm) := c]), b, mode, nm) ==
            Table([RowKey(b, nm)], map[RowKey(b, nm) := Cleaned(b, nm)])
  {
    StepOutranks(Table([RowKey(b, nm)], map[RowKey(b, nm) := c]), b, mode, nm);
    SingletonUpdate(RowKey(b, nm), c, Cleaned(b, nm));
  }

  lemma StepKeeps(c: DistrictRow, b: DistrictRow, mode: Mode, nm: Namers)
    requires Kept(b, nm) && NewRank(b) <= StoredRank(c, mode)
    ensures Step(Table([RowKey(b, nm)], map[RowKey(b, nm) := c]), b, mode, nm) ==
            Table([RowKey(b, nm)], map[RowKey(b, nm) := c])
  {
    StepOutranked(Table([RowKey(b, nm)], map[RowKey(b, nm) := c]), b, mode, nm);
  }

  /** Two rows under one key: the first is stored, and the second replaces
      it exactly when it ranks strictly higher than the stored one. */
  lemma TwoRows(a: DistrictRow, b: DistrictRow, mode: Mode, nm: Namers)
    requires Kept(a, nm) && Kept(b, nm) && RowKey(a, nm) == RowKey(b, nm)
    ensures var key := RowKey(a, nm);
            Dedup([a, b], mode, nm) ==
              if NewRank(b) > StoredRank(Cleaned(a, nm), mode) then Table([key], map[key := Cleaned(b, nm)])
              else Table([key], map[key := Cleaned(a, nm)])
  {
    SecondRow(a, b, mode, nm);
    if NewRank(b) > StoredRank(Cleaned(a, nm), mode) {
      StepReplaces(Cleaned(a, nm), b, mode, nm);
    } else {
      StepKeeps(Cleaned(a, nm), b, mode, nm);
    }
  }

  /** A stored label with a leading space is looked up untrimmed and ranks 0,
      so a later "Low Demand" row replaces an earlier " High Demand" row for
      the same key; trimming both labels keeps the high one. */
  lemma TrimFinding(high: DistrictRow, low: DistrictRow, nm: Namers)
    requires Kept(high, nm) && high.demand == Some([' '] + "High Demand")
    requires low == high.(demand := Some("Low Demand"))
    ensures && Kept(low, nm) && RowKey(low, nm) == RowKey(high, nm)
            && RowKey(high, nm) in Dedup([high, low], AsWritten, nm).rows
            && Dedup([high, low], AsWritten, nm).rows[RowKey(high, nm)] == Cleaned(low, nm)
            && RowKey(high, nm) in Dedup([high, low], Corrected, nm).rows
            && Dedup([high, low], Corrected, nm).rows[RowKey(high, nm)] == Cleaned(high, nm)
  {
    LowRowRanks(low, AsWritten);
    PaddedHighRowRanks(Cleaned(high, nm));
    TwoRows(high, low, AsWritten, nm);
    TwoRows(high, low, Corrected, nm);
  }

  /** A "High Demand" row beats a "Low Demand" row for the same key,
      whichever comes first, under either ranking; one row is left. */
  lemma HighBeatsLow(high: DistrictRow, low: DistrictRow, mode: Mode, nm: Namers)
    requires Kept(high, nm) && Kept(low, nm) && RowKey(high, nm) == RowKey(low, nm)
    requires high.demand == Some("High Demand") && low.demand == Some("Low Demand")
    ensures Dedup([low, high], mode, nm) == Table([RowKey(high, nm)], map[RowKey(high, nm) := Cleaned(high, nm)])
    ensures Dedup([high, low], mode, nm) == Table([RowKey(high, nm)], map[RowKey(high, nm) := Cleaned(high, nm)])
  {
    HighRowRanks(high, mode);
    HighRowRanks(Cleaned(high, nm), mode);
    LowRowRanks(low, mode);
    LowRowRanks(Cleaned(low, nm), mode);
    TwoRows(low, high, mode, nm);
    TwoRows(high, low, mode, nm);
  }

  /** The rows orissa/khorda/"Low Demand" and Odisha/Khorda/"High Demand"
      (any letter case) leave one row: the high one, named Odisha. */
  lemma OdishaScenario(low: DistrictRow, high: DistrictRow, mode: Mode)
    requires low.state.Some? && Lower(low.state.value) == "orissa"
    requires high.state.Some? && Lower(high.state.value) == "odisha"
    requires low.district.Some? && high.district.Some? && !Blank(high.district.value)
    requires Lower(low.district.value) == Lower(high.district.value)
    requires low.demand == Some("Low Demand") && high.demand == Some("High Demand")
    ensures Kept(high, Component) && NormalizeState(high.state) == Some("Odisha")
    ensures Dedup([low, high], mode, Component)
            == Table([RowKey(high, Component)], map[RowKey(high, Component) := Cleaned(high, Component)])
  {
    AliasesConverge(low.state.value, high.state.value);
    SameNamesSameKey(low, high);
    HighBeatsLow(high, low, mode, Component);
  }

  /** Two rows with the same state name and districts equal up to letter
      case share a key, and both take part. */
  lemma SameNamesSameKey(low: DistrictRow, high: DistrictRow)
    requires NormalizeState(low.state) == NormalizeState(high.state)
    requires NormalizeState(high.state).Some? && NormalizeState(high.state).value != ""
    requires low.district.Some? && high.district.Some? && !Blank(high.district.value)
    requires Lower(low.district.value) == Lower(high.district.value)
    requires low.demand == Some("Low Demand") && high.demand == Some("High Demand")
    ensures Kept(high, Component) && Kept(low, Component) && RowKey(high, Component) == RowKey(low, Component)
  {
    DistrictNamed(high.district);
    assert Canonicalize(low.district.value) == Canonicalize(high.district.value);
    assert NormalizeDistrict(low.district) == NormalizeDistrict(high.district);
    HighRowRanks(high, AsWritten);
    LowRowRanks(low, AsWritten);
  }

  /** A row labelled "High Demand" ranks 3, arriving or stored. */
  lemma HighRowRanks(row: DistrictRow, mode: Mode)
    requires row.demand == Some("High Demand")
    ensures Demand(row) == Some("High Demand") && NewRank(row) == 3 && StoredRank(row, mode) == 3
  {
    HighLabel();
    RowRanks(row, mode, "High Demand", 3);
  }

  lemma HighLabel()
    ensures Trim("High Demand") == "High Demand" && Priority("High Demand") == 3
  {
    TrimOfTrimmed("High Demand");
  }

  /** A row whose label is already trimmed ranks by that label, arriving or stored. */
  lemma RowRanks(row: DistrictRow, mode: Mode, tag: string, p: nat)
    requires row.demand == Some(tag) && Trim(tag) == tag && Priority(tag) == p
    ensures Demand(row) == Some(tag) && NewRank(row) == p && StoredRank(row, mode) == p
  {}

  /** A row labelled "Low Demand" ranks 1, arriving or stored. */
  lemma LowRowRanks(row: DistrictRow, mode: Mode)
    requires row.demand == Some("Low Demand")
    ensures Demand(row) == Some("Low Demand") && NewRank(row) == 1 && StoredRank(row, mode) == 1
  {
    LowLabel();
    RowRanks(row, mode, "Low Demand", 1);
  }

  lemma LowLabel()
    ensures Trim("Low Demand") == "Low Demand" && Priority("Low Demand") == 1
  {
    TrimOfTrimmed("Low Demand");
  }

  /** A stored row labelled " High Demand" ranks 0 untrimmed and 3 trimmed. */
  lemma PaddedHighRowRanks(row: DistrictRow)
    requires row.demand == Some([' '] + "High Demand")
    ensures StoredRank(row, AsWritten) == 0 && StoredRank(row, Corrected) == 3
  {
    TrimStartSkipsSpace(' ', "High Demand");
    TrimOfTrimmed("High Demand");
  }

  // ---------------------------------------------------------------- drop-down, filter, badge

  /** `cleanedData.map(d => d.state)`. */
  function StatesOf(rows: seq<DistrictRow>): (r: seq<string>)
    ensures |r| == |rows|
  {
    seq(|rows|, i requires 0 <= i < |rows| => rows[i].state.GetOr(""))
  }

  /** `["All", ...Array.from(new Set(states)).sort()]`: "All" first, then
      every state of the listing exactly once, in ascending order. */
  function StateOptions(rows: seq<DistrictRow>): (r: seq<string>)
    ensures |r| >= 1 && r[0] == "All"
    ensures StrictlySorted(r[1..])
    ensures forall s :: s in r[1..] <==> exists i :: 0 <= i < |rows| && rows[i].state.GetOr("") == s
  {
    var states := StatesOf(rows);
    var d := Distinct(states);
    SortStringsStrict(d);
    var r := ["All"] + SortStrings(d);
    assert r[1..] == SortStrings(d);
    assert forall s :: s in states <==> exists i :: 0 <= i < |rows| && rows[i].state.GetOr("") == s by {
      forall s | s in states ensures exists i :: 0 <= i < |rows| && rows[i].state.GetOr("") == s {
        var i :| 0 <= i < |states| && states[i] == s;
      }
      forall i | 0 <= i < |rows| ensures rows[i].state.GetOr("") in states {
        assert states[i] == rows[i].state.GetOr("");
      }
    }
    r
  }

  /** The search box and the state drop-down: the row's state equals the
      selected one (or "All" is selected), and the lower-cased search text
      occurs in the lower-cased state or district. */
  predicate Matches(row: DistrictRow, stateFilter: string, search: string) {
    var st := row.state.GetOr("");
    var di := row.district.GetOr("");
    && (stateFilter == "All" || st == stateFilter)
    && (Contains(Lower(st), Lower(search)) || Contains(Lower(di), Lower(search)))
  }

  /** `filteredData`. */
  function FilterRows(rows: seq<DistrictRow>, stateFilter: string, search: string): (r: seq<DistrictRow>)
    ensures forall row :: row in r <==> row in rows && Matches(row, stateFilter, search)
    ensures |r| == Count(rows, Shown(stateFilter, search))
    ensures forall b :: 0 <= b <= |rows| ==> Filter(rows[..b], Shown(stateFilter, search)) <= r
    ensures multiset(r) <= multiset(rows)
  {
    FilterPrefixes(rows, Shown(stateFilter, search));
    Filter(rows, Shown(stateFilter, search))
  }

  /** The test `filteredData` applies to each row. */
  function Shown(stateFilter: string, search: string): DistrictRow -> bool {
    row => Matches(row, stateFilter, search)
  }

  /** With "All" selected and an empty search box every row is shown, in order. */
  lemma FilterShowsAll(rows: seq<DistrictRow>)
    ensures FilterRows(rows, "All", "") == rows
  {
    forall row | row in rows ensures Matches(row, "All", "") {
      EmptyIsContained(Lower(row.state.GetOr("")));
    }
    FilterKeepsAll(rows, Shown("All", ""));
  }

  /** The search ignores the letter case of what is typed. */
  lemma SearchIgnoresCase(rows: seq<DistrictRow>, stateFilter: string, search: string)
    ensures FilterRows(rows, stateFilter, search) == FilterRows(rows, stateFilter, Lower(search))
  {
    LowerHasNoUpper(search);
    LowerOfLowered(Lower(search));
    FilterSamePredicate(rows, Shown(stateFilter, search), Shown(stateFilter, Lower(search)));
  }

  /** Choosing a state only ever narrows what "All" shows. */
  lemma StateFilterNarrows(rows: seq<DistrictRow>, stateFilter: string, search: string)
    ensures forall row :: row in FilterRows(rows, stateFilter, search) ==> row in FilterRows(rows, "All", search)
  {}

  /** `getBadgeClass`: red for high demand, yellow for medium, green otherwise. */
  function BadgeClass(demand: Option<string>): (c: string)
    ensures c == "badge red" <==> demand == Some("High Demand")
    ensures c == "badge yellow" <==> demand == Some("Medium Demand")
    ensures c == "badge green" <==> demand != Some("High Demand") && demand != Some("Medium Demand")
  {
    if demand == Some("High Demand") then "badge red"
    else if demand == Some("Medium Demand") then "badge yellow"
    else "badge green"
  }
}
