/** The friction analysis page: its own closed table of state spellings, the
    lower-case-and-trim lookup, the state drop-down, the state filter, the
    displayed name and the friction badge. */
module FrictionAnalysis {
  import opened Wrappers
  import opened Text
  import opened Seqs
  import opened Records
  import opened StateLookup

  // ---------------------------------------------------------------- the table

  // `CANONICAL_STATES`, in source order, in groups of at most eight entries.

  /** Lines 8-15 of the table. */
  const Group1: map<string, string> := map[
    "andaman & nicobar islands" := "Andaman & Nicobar Islands",
    "andaman and nicobar islands" := "Andaman & Nicobar Islands",
    "andhra pradesh" := "Andhra Pradesh",
    "arunachal pradesh" := "Arunachal Pradesh",
    "assam" := "Assam",
    "bihar" := "Bihar",
    "chandigarh" := "Chandigarh",
    "chhattisgarh" := "Chhattisgarh"
  ]
  /** Lines 16-23 of the table. */
  const Group2: map<string, string> := map[
    "delhi" := "Delhi",
    "goa" := "Goa",
    "gujarat" := "Gujarat",
    "haryana" := "Haryana",
    "himachal pradesh" := "Himachal Pradesh",
    "jharkhand" := "Jharkhand",
    "karnataka" := "Karnataka",
    "kerala" := "Kerala"
  ]
  /** Lines 24-31 of the table. */
  const Group3: map<string, string> := map[
    "ladakh" := "Ladakh",
    "lakshadweep" := "Lakshadweep",
    "madhya pradesh" := "Madhya Pradesh",
    "maharashtra" := "Maharashtra",
    "manipur" := "Manipur",
    "meghalaya" := "Meghalaya",
    "mizoram" := "Mizoram",
    "nagaland" := "Nagaland"
  ]
  /** Lines 32-39 of the table. */
  const Group4: map<string, string> := map[
    "odisha" := "Odisha",
    "orissa" := "Odisha",
    "pondicherry" := "Puducherry",
    "puducherry" := "Puducherry",
    "punjab" := "Punjab",
    "rajasthan" := "Rajasthan",
    "sikkim" := "Sikkim",
    "tamil nadu" := "Tamil Nadu"
  ]
  /** Lines 40-47 of the table. */
  const Group5: map<string, string> := map[
    "telangana" := "Telangana",
    "tripura" := "Tripura",
    "uttar pradesh" := "Uttar Pradesh",
    "uttarakhand" := "Uttarakhand",
    "west bengal" := "West Bengal",
    "west bangal" := "West Bengal",
    "westbengal" := "West Bengal",
    "west  bengal" := "West Bengal"
  ]
  /** Lines 48-55 of the table. */
  const Group6: map<string, string> := map[
    "jammu & kashmir" := "Jammu & Kashmir",
    "jammu and kashmir" := "Jammu & Kashmir",
    "dadra & nagar haveli" := "Dadra & Nagar Haveli and Daman & Diu",
    "dadra and nagar haveli" := "Dadra & Nagar Haveli and Daman & Diu",
    "daman & diu" := "Dadra & Nagar Haveli and Daman & Diu",
    "daman and diu" := "Dadra & Nagar Haveli and Daman & Diu",
    "dadra & nagar haveli & daman & diu" := "Dadra & Nagar Haveli and Daman & Diu",
    "dadra and nagar haveli and daman and diu" := "Dadra & Nagar Haveli and Daman & Diu"
  ]
  /** Lines 56-57 of the table. */
  const Group7: map<string, string> := map[
    "the dadra & nagar haveli & daman & diu" := "Dadra & Nagar Haveli and Daman & Diu",
    "the dadra and nagar haveli and daman and diu" := "Dadra & Nagar Haveli and Daman & Diu"
  ]

  const CanonicalStates: map<string, string> :=
    Group1 + Group2 + Group3 + Group4 + Group5 + Group6 + Group7

  lemma GroupsProperA()
    ensures Proper(Group1) && Proper(Group2) && Proper(Group3)
  {}

  lemma GroupsProperB()
    ensures Proper(Group4) && Proper(Group5)
  {}

  lemma GroupsProperC()
    ensures Proper(Group6) && Proper(Group7)
  {}

  /** No key and no name of the table is empty. */
  lemma CanonicalStatesProper()
    ensures Proper(CanonicalStates)
  {
    GroupsProperA();
    GroupsProperB();
    GroupsProperC();
    UnionProper(Group1, Group2);
    UnionProper(Group1 + Group2, Group3);
    UnionProper(Group1 + Group2 + Group3, Group4);
    UnionProper(Group1 + Group2 + Group3 + Group4, Group5);
    UnionProper(Group1 + Group2 + Group3 + Group4 + Group5, Group6);
    UnionProper(Group1 + Group2 + Group3 + Group4 + Group5 + Group6, Group7);
  }

  /** `normalizeState`, over the table as written; the page uses it. */
  function NormalizeState(raw: Option<string>): Option<string> {
    Normalize(CanonicalStates, raw)
  }

  /** The table with the one key it evidently lacks: its own name for Dadra &
      Nagar Haveli and Daman & Diu, lower-cased. */
  const CorrectedStates: map<string, string> := CanonicalStates[DadraKey := DadraName]

  /** `normalizeState` over the corrected table, for comparison with the page
      as written. */
  function NormalizeStateCorrected(raw: Option<string>): Option<string> {
    Normalize(CorrectedStates, raw)
  }

  lemma CorrectedStatesProper()
    ensures Proper(CorrectedStates)
  {
    CanonicalStatesProper();
  }


  // ---------------------------------------------------------------- single keys

  lemma TwoSpaceBengalListedInGroups()
    ensures "west  bengal" in Group5 && Group5["west  bengal"] == "West Bengal"
    ensures "west  bengal" !in Group6 && "west  bengal" !in Group7
  {}

  /** The key `west  bengal`, with two spaces inside. */
  lemma TwoSpaceBengalListed()
    ensures "west  bengal" in CanonicalStates && CanonicalStates["west  bengal"] == "West Bengal"
  {
    TwoSpaceBengalListedInGroups();
    UnionLookup(Group1 + Group2 + Group3 + Group4, Group5, "west  bengal");
    UnionLookup(Group1 + Group2 + Group3 + Group4 + Group5, Group6, "west  bengal");
    UnionLookup(Group1 + Group2 + Group3 + Group4 + Group5 + Group6, Group7, "west  bengal");
  }

  lemma DadraShortAmpListedInGroups()
    ensures "dadra & nagar haveli" in Group6 && Group6["dadra & nagar haveli"] == "Dadra & Nagar Haveli and Daman & Diu"
    ensures "dadra & nagar haveli" !in Group7
  {}

  lemma DadraShortAmpListed()
    ensures "dadra & nagar haveli" in CanonicalStates && CanonicalStates["dadra & nagar haveli"] == DadraName
  {
    DadraShortAmpListedInGroups();
    UnionLookup(Group1 + Group2 + Group3 + Group4 + Group5, Group6, "dadra & nagar haveli");
    UnionLookup(Group1 + Group2 + Group3 + Group4 + Group5 + Group6, Group7, "dadra & nagar haveli");
  }

  lemma DadraShortAndListedInGroups()
    ensures "dadra and nagar haveli" in Group6 && Group6["dadra and nagar haveli"] == "Dadra & Nagar Haveli and Daman & Diu"
    ensures "dadra and nagar haveli" !in Group7
  {}

  lemma DadraShortAndListed()
    ensures "dadra and nagar haveli" in CanonicalStates && CanonicalStates["dadra and nagar haveli"] == DadraName
  {
    DadraShortAndListedInGroups();
    UnionLookup(Group1 + Group2 + Group3 + Group4 + Group5, Group6, "dadra and nagar haveli");
    UnionLookup(Group1 + Group2 + Group3 + Group4 + Group5 + Group6, Group7, "dadra and nagar haveli");
  }

  lemma DamanAmpListedInGroups()
    ensures "daman & diu" in Group6 && Group6["daman & diu"] == "Dadra & Nagar Haveli and Daman & Diu"
    ensures "daman & diu" !in Group7
  {}

  lemma DamanAmpListed()
    ensures "daman & diu" in CanonicalStates && CanonicalStates["daman & diu"] == DadraName
  {
    DamanAmpListedInGroups();
    UnionLookup(Group1 + Group2 + Group3 + Group4 + Group5, Group6, "daman & diu");
    UnionLookup(Group1 + Group2 + Group3 + Group4 + Group5 + Group6, Group7, "daman & diu");
  }

  lemma DamanAndListedInGroups()
    ensures "daman and diu" in Group6 && Group6["daman and diu"] == "Dadra & Nagar Haveli and Daman & Diu"
    ensures "daman and diu" !in Group7
  {}

  lemma DamanAndListed()
    ensures "daman and diu" in CanonicalStates && CanonicalStates["daman and diu"] == DadraName
  {
    DamanAndListedInGroups();
    UnionLookup(Group1 + Group2 + Group3 + Group4 + Group5, Group6, "daman and diu");
    UnionLookup(Group1 + Group2 + Group3 + Group4 + Group5 + Group6, Group7, "daman and diu");
  }

  lemma DadraAmpListedInGroups()
    ensures "dadra & nagar haveli & daman & diu" in Group6 && Group6["dadra & nagar haveli & daman & diu"] == "Dadra & Nagar Haveli and Daman & Diu"
    ensures "dadra & nagar haveli & daman & diu" !in Group7
  {}

  lemma DadraAmpListed()
    ensures "dadra & nagar haveli & daman & diu" in CanonicalStates && CanonicalStates["dadra & nagar haveli & daman & diu"] == DadraName
  {
    DadraAmpListedInGroups();
    UnionLookup(Group1 + Group2 + Group3 + Group4 + Group5, Group6, "dadra & nagar haveli & daman & diu");
    UnionLookup(Group1 + Group2 + Group3 + Group4 + Group5 + Group6, Group7, "dadra & nagar haveli & daman & diu");
  }

  lemma DadraTheAndListedInGroups()
    ensures "the dadra and nagar haveli and daman and diu" in Group7 && Group7["the dadra and nagar haveli and daman and diu"] == "Dadra & Nagar Haveli and Daman & Diu"
  {}

  lemma DadraTheAndListed()
    ensures "the dadra and nagar haveli and daman and diu" in CanonicalStates && CanonicalStates["the dadra and nagar haveli and daman and diu"] == DadraName
  {
    DadraTheAndListedInGroups();
    UnionLookup(Group1 + Group2 + Group3 + Group4 + Group5 + Group6, Group7, "the dadra and nagar haveli and daman and diu");
  }

  /** All eight spellings of Dadra & Nagar Haveli and of Daman & Diu name the
      merged union territory. */
  lemma DadraSpellingsListed()
    ensures "dadra & nagar haveli" in CanonicalStates && CanonicalStates["dadra & nagar haveli"] == DadraName
    ensures "dadra and nagar haveli" in CanonicalStates && CanonicalStates["dadra and nagar haveli"] == DadraName
    ensures "daman & diu" in CanonicalStates && CanonicalStates["daman & diu"] == DadraName
    ensures "daman and diu" in CanonicalStates && CanonicalStates["daman and diu"] == DadraName
    ensures "dadra & nagar haveli & daman & diu" in CanonicalStates && CanonicalStates["dadra & nagar haveli & daman & diu"] == DadraName
    ensures "dadra and nagar haveli and daman and diu" in CanonicalStates && CanonicalStates["dadra and nagar haveli and daman and diu"] == DadraName
    ensures "the dadra & nagar haveli & daman & diu" in CanonicalStates && CanonicalStates["the dadra & nagar haveli & daman & diu"] == DadraName
    ensures "the dadra and nagar haveli and daman and diu" in CanonicalStates && CanonicalStates["the dadra and nagar haveli and daman and diu"] == DadraName
  {
    DadraShortAmpListed();
    DadraShortAndListed();
    DamanAmpListed();
    DamanAndListed();
    DadraAmpListed();
    DadraLongListed();
    DadraTheListed();
    DadraTheAndListed();
  }

  lemma ThreeSpaceBengalUnlistedInGroups()
    ensures "west   bengal" !in Group1 && "west   bengal" !in Group2 && "west   bengal" !in Group3 && "west   bengal" !in Group4
    ensures "west   bengal" !in Group5 && "west   bengal" !in Group6 && "west   bengal" !in Group7
  {}

  /** No key is `west   bengal` with three spaces inside. */
  lemma ThreeSpaceBengalUnlisted()
    ensures "west   bengal" !in CanonicalStates
  {
    ThreeSpaceBengalUnlistedInGroups();
    UnionLookup(Group1, Group2, "west   bengal");
    UnionLookup(Group1 + Group2, Group3, "west   bengal");
    UnionLookup(Group1 + Group2 + Group3, Group4, "west   bengal");
    UnionLookup(Group1 + Group2 + Group3 + Group4, Group5, "west   bengal");
    UnionLookup(Group1 + Group2 + Group3 + Group4 + Group5, Group6, "west   bengal");
    UnionLookup(Group1 + Group2 + Group3 + Group4 + Group5 + Group6, Group7, "west   bengal");
  }

  lemma OrissaListedInGroups()
    ensures "orissa" in Group4 && Group4["orissa"] == "Odisha"
    ensures "orissa" !in Group5 && "orissa" !in Group6 && "orissa" !in Group7
  {}

  /** The old spelling of Odisha. */
  lemma OrissaListed()
    ensures "orissa" in CanonicalStates && CanonicalStates["orissa"] == "Odisha"
  {
    OrissaListedInGroups();
    UnionLookup(Group1 + Group2 + Group3, Group4, "orissa");
    UnionLookup(Group1 + Group2 + Group3 + Group4, Group5, "orissa");
    UnionLookup(Group1 + Group2 + Group3 + Group4 + Group5, Group6, "orissa");
    UnionLookup(Group1 + Group2 + Group3 + Group4 + Group5 + Group6, Group7, "orissa");
  }

  lemma DadraLongListedInGroups()
    ensures "dadra and nagar haveli and daman and diu" in Group6 && Group6["dadra and nagar haveli and daman and diu"] == "Dadra & Nagar Haveli and Daman & Diu"
    ensures "dadra and nagar haveli and daman and diu" !in Group7
  {}

  /** The long spelling with `and` throughout. */
  lemma DadraLongListed()
    ensures "dadra and nagar haveli and daman and diu" in CanonicalStates && CanonicalStates["dadra and nagar haveli and daman and diu"] == "Dadra & Nagar Haveli and Daman & Diu"
  {
    DadraLongListedInGroups();
    UnionLookup(Group1 + Group2 + Group3 + Group4 + Group5, Group6, "dadra and nagar haveli and daman and diu");
    UnionLookup(Group1 + Group2 + Group3 + Group4 + Group5 + Group6, Group7, "dadra and nagar haveli and daman and diu");
  }

  lemma DadraTheListedInGroups()
    ensures "the dadra & nagar haveli & daman & diu" in Group7 && Group7["the dadra & nagar haveli & daman & diu"] == "Dadra & Nagar Haveli and Daman & Diu"
  {}

  /** The spelling with a leading `the`. */
  lemma DadraTheListed()
    ensures "the dadra & nagar haveli & daman & diu" in CanonicalStates && CanonicalStates["the dadra & nagar haveli & daman & diu"] == "Dadra & Nagar Haveli and Daman & Diu"
  {
    DadraTheListedInGroups();
    UnionLookup(Group1 + Group2 + Group3 + Group4 + Group5 + Group6, Group7, "the dadra & nagar haveli & daman & diu");
  }

  lemma DadraKeyUnlistedInGroups()
    ensures "dadra & nagar haveli and daman & diu" !in Group1 && "dadra & nagar haveli and daman & diu" !in Group2 && "dadra & nagar haveli and daman & diu" !in Group3 && "dadra & nagar haveli and daman & diu" !in Group4
    ensures "dadra & nagar haveli and daman & diu" !in Group5 && "dadra & nagar haveli and daman & diu" !in Group6 && "dadra & nagar haveli and daman & diu" !in Group7
  {}

  /** The lower-cased `DadraName` is not a key. */
  lemma DadraKeyUnlisted()
    ensures "dadra & nagar haveli and daman & diu" !in CanonicalStates
  {
    DadraKeyUnlistedInGroups();
    UnionLookup(Group1, Group2, "dadra & nagar haveli and daman & diu");
    UnionLookup(Group1 + Group2, Group3, "dadra & nagar haveli and daman & diu");
    UnionLookup(Group1 + Group2 + Group3, Group4, "dadra & nagar haveli and daman & diu");
    UnionLookup(Group1 + Group2 + Group3 + Group4, Group5, "dadra & nagar haveli and daman & diu");
    UnionLookup(Group1 + Group2 + Group3 + Group4 + Group5, Group6, "dadra & nagar haveli and daman & diu");
    UnionLookup(Group1 + Group2 + Group3 + Group4 + Group5 + Group6, Group7, "dadra & nagar haveli and daman & diu");
  }

  // ---------------------------------------------------------------- the lookup

  /** A value whose key is listed under a name other than the added one gets
      that name from both tables. */
  lemma ListedAt(raw: string, k: string, v: string)
    requires raw != "" && LookupKey(raw) == k && k != DadraKey
    requires k in CanonicalStates && CanonicalStates[k] == v && v != ""
    ensures NormalizeState(Some(raw)) == Some(v)
    ensures NormalizeStateCorrected(Some(raw)) == Some(v)
  {
    NormalizeAt(CanonicalStates, raw, k);
    NormalizeUpdate(CanonicalStates, DadraKey, DadraName, raw);
  }

  /** The same, for a value that lower-cases to the key. */
  lemma ListedLowered(raw: string, k: string, v: string)
    requires Lower(raw) == k && k != "" && !IsSpace(k[0]) && !IsSpace(k[|k| - 1]) && k != DadraKey
    requires k in CanonicalStates && CanonicalStates[k] == v && v != ""
    ensures NormalizeState(Some(raw)) == Some(v)
    ensures NormalizeStateCorrected(Some(raw)) == Some(v)
  {
    KeyOfLowered(raw, k);
    ListedAt(raw, k, v);
  }

  /** A value whose key is not listed is dropped. */
  lemma UnlistedAt(raw: string, k: string)
    requires raw != "" && LookupKey(raw) == k && k !in CanonicalStates
    ensures NormalizeState(Some(raw)) == None
    ensures k != DadraKey ==> NormalizeStateCorrected(Some(raw)) == None
  {
    NormalizeAt(CanonicalStates, raw, k);
    NormalizeUpdate(CanonicalStates, DadraKey, DadraName, raw);
  }

  /** `West  Bengal` with two inner spaces keeps both (the lookup does not
      collapse inner whitespace) and hits the two-space key. */
  lemma TwoSpaceBengal(raw: string)
    requires Lower(raw) == "west  bengal"
    ensures NormalizeState(Some(raw)) == Some("West Bengal")
    ensures NormalizeStateCorrected(Some(raw)) == Some("West Bengal")
  {
    TwoSpaceBengalListed();
    TwoSpaceKeyIsBare();
    ListedLowered(raw, "west  bengal", "West Bengal");
  }

  lemma TwoSpaceKeyIsBare()
    ensures "west  bengal" != "" && !IsSpace("west  bengal"[0]) && !IsSpace("west  bengal"[|"west  bengal"| - 1])
    ensures "west  bengal" != DadraKey
  {}

  /** With three inner spaces nothing matches and the state is dropped. */
  lemma ThreeSpaceBengal(raw: string)
    requires Lower(raw) == "west   bengal"
    ensures NormalizeState(Some(raw)) == None
    ensures NormalizeStateCorrected(Some(raw)) == None
  {
    KeyOfLowered(raw, "west   bengal");
    ThreeSpaceBengalUnlisted();
    UnlistedAt(raw, "west   bengal");
  }

  /** The old spelling `Orissa`, in any case, becomes `Odisha`. */
  lemma OrissaIsOdisha(raw: string)
    requires Lower(raw) == "orissa"
    ensures NormalizeState(Some(raw)) == Some("Odisha")
    ensures NormalizeStateCorrected(Some(raw)) == Some("Odisha")
  {
    OrissaListed();
    OrissaKeyIsBare();
    ListedLowered(raw, "orissa", "Odisha");
  }

  lemma OrissaKeyIsBare()
    ensures "orissa" != "" && !IsSpace("orissa"[0]) && !IsSpace("orissa"[|"orissa"| - 1]) && "orissa" != DadraKey
  {}

  /** The spelling with `and` throughout, in any case, becomes `DadraName`. */
  lemma DadraLongSpelling(raw: string)
    requires Lower(raw) == "dadra and nagar haveli and daman and diu"
    ensures NormalizeState(Some(raw)) == Some(DadraName)
    ensures NormalizeStateCorrected(Some(raw)) == Some(DadraName)
  {
    DadraLongListed();
    DadraLongKeyIsBare();
    ListedLowered(raw, "dadra and nagar haveli and daman and diu", DadraName);
  }

  lemma DadraLongKeyIsBare()
    ensures var k := "dadra and nagar haveli and daman and diu";
            k != "" && !IsSpace(k[0]) && !IsSpace(k[|k| - 1]) && k != DadraKey
  {}

  /** So does the spelling with a leading `the`. */
  lemma DadraTheSpelling(raw: string)
    requires Lower(raw) == "the dadra & nagar haveli & daman & diu"
    ensures NormalizeState(Some(raw)) == Some(DadraName)
    ensures NormalizeStateCorrected(Some(raw)) == Some(DadraName)
  {
    DadraTheListed();
    DadraTheKeyIsBare();
    ListedLowered(raw, "the dadra & nagar haveli & daman & diu", DadraName);
  }

  lemma DadraTheKeyIsBare()
    ensures var k := "the dadra & nagar haveli & daman & diu";
            k != "" && !IsSpace(k[0]) && !IsSpace(k[|k| - 1]) && k != DadraKey
  {}

  /** As written, the table's own name for the merged union territory is not
      recognised: a row that already carries it has no state. */
  lemma DadraNameDropped()
    ensures NormalizeState(Some(DadraName)) == None
  {
    LowerDadraName();
    KeyOfLowered(DadraName, DadraKey);
    DadraKeyUnlisted();
    UnlistedAt(DadraName, DadraKey);
  }

  /** With the corrected table the name is recognised as itself. */
  lemma DadraNameKept()
    ensures NormalizeStateCorrected(Some(DadraName)) == Some(DadraName)
  {
    LowerDadraName();
    KeyOfLowered(DadraName, DadraKey);
    NormalizeUpdate(CanonicalStates, DadraKey, DadraName, DadraName);
  }

  /** The correction changes the lookup of no other value. */
  lemma CorrectionOnlyAddsDadra(raw: string)
    requires raw == "" || LookupKey(raw) != DadraKey
    ensures NormalizeStateCorrected(Some(raw)) == NormalizeState(Some(raw))
  {
    NormalizeUpdate(CanonicalStates, DadraKey, DadraName, raw);
  }

  // ---------------------------------------------------------------- the page

  /** `normalizeState(row.state)`, as the page computes it. */
  function RowName(row: FrictionRow): Option<string> {
    NormalizeState(row.state)
  }

  /** The same over the corrected table. */
  function RowNameCorrected(row: FrictionRow): Option<string> {
    NormalizeStateCorrected(row.state)
  }

  /** Every name the page derives is a non-empty name of its table; the
      corrected lookup draws from the same set of names. */
  lemma RowNameIsTableName(row: FrictionRow)
    ensures RowName(row).Some? ==> RowName(row).value in CanonicalStates.Values && RowName(row).value != ""
    ensures RowNameCorrected(row).Some? ==> RowNameCorrected(row).value in CanonicalStates.Values && RowNameCorrected(row).value != ""
  {
    NormalizeMeans(CanonicalStates, row.state);
    NormalizeMeans(CorrectedStates, row.state);
    CorrectedNamesAreTableNames();
  }

  /** The added entry names a territory the table already names. */
  lemma CorrectedNamesAreTableNames()
    ensures forall v :: v in CorrectedStates.Values ==> v in CanonicalStates.Values
  {
    DadraShortAmpListed();
    forall v | v in CorrectedStates.Values ensures v in CanonicalStates.Values {
      var k :| k in CorrectedStates && CorrectedStates[k] == v;
      if k == DadraKey {
        assert CanonicalStates["dadra & nagar haveli"] == v;
      } else {
        assert CanonicalStates[k] == v;
      }
    }
  }

  /** `states`: "All", then each recognised state once, in ascending order;
      every one of them is a name of the table. */
  method States(data: seq<FrictionRow>) returns (states: seq<string>)
    ensures |states| >= 1 && states[0] == "All" && StrictlySorted(states[1..])
    ensures forall n :: n in states[1..] <==> exists i :: 0 <= i < |data| && RowName(data[i]) == Some(n)
    ensures forall n :: n in states[1..] ==> n in CanonicalStates.Values
  {
    states := StateOptions(data, RowName);
    StateOptionsMeans(data, RowName);
    forall n | n in states[1..] ensures n in CanonicalStates.Values {
      var i :| 0 <= i < |data| && RowName(data[i]) == Some(n);
      RowNameIsTableName(data[i]);
    }
  }

  /** `filtered`. */
  function Filtered(data: seq<FrictionRow>, selection: string): seq<FrictionRow> {
    FilterByState(data, RowName, selection)
  }

  /** `filtered` over the corrected lookup. */
  function FilteredCorrected(data: seq<FrictionRow>, selection: string): seq<FrictionRow> {
    FilterByState(data, RowNameCorrected, selection)
  }

  /** "All" shows every row; a state shows exactly the rows recognised as it,
      in their original order and as often as they occur, and "No data
      available for this state" appears exactly when no row is. */
  lemma FilteredMeans(data: seq<FrictionRow>, selection: string)
    ensures selection == "All" ==> Filtered(data, selection) == data
    ensures selection != "All" ==>
              forall row :: row in Filtered(data, selection) <==> row in data && RowName(row) == Some(selection)
    ensures selection != "All" ==>
              && |Filtered(data, selection)| == Count(data, Selected(RowName, selection))
              && forall b :: 0 <= b <= |data| ==> Filter(data[..b], Selected(RowName, selection)) <= Filtered(data, selection)
    ensures selection != "All" ==>
              (|Filtered(data, selection)| == 0 <==> forall row :: row in data ==> RowName(row) != Some(selection))
  {
    if selection != "All" {
      FilterByStateMeans(data, RowName, selection);
    }
  }

  /** As written, a row carrying the table's own name for Dadra & Nagar Haveli
      and Daman & Diu has no state: it never reaches the drop-down and is
      hidden under every state. With the corrected table it is listed under
      that name. */
  lemma DadraRows(data: seq<FrictionRow>, i: nat)
    requires i < |data| && data[i].state == Some(DadraName)
    ensures RowName(data[i]).None?
    ensures forall sel :: sel != "All" ==> data[i] !in Filtered(data, sel)
    ensures RowNameCorrected(data[i]) == Some(DadraName) && data[i] in FilteredCorrected(data, DadraName)
  {
    DadraNameDropped();
    DadraNameKept();
    assert data[i] in data;
    forall sel | sel != "All"
      ensures data[i] !in Filtered(data, sel)
    {
      UnrecognisedNeverSelected(data, RowName, sel, data[i]);
    }
    FilterByStateMeans(data, RowNameCorrected, DadraName);
  }

  /** `normalizeState(row.state) || row.state`: the recognised name when there
      is one, otherwise the raw value as it came. */
  function DisplayState(row: FrictionRow): (shown: Option<string>)
    ensures RowName(row).Some? ==> shown == RowName(row)
    ensures RowName(row).None? ==> shown == row.state
    ensures row.state.Some? ==> shown.Some?
    ensures shown != row.state ==> shown.Some? && shown.value in CanonicalStates.Values
  {
    RowNameIsTableName(row);
    match RowName(row)
    case Some(n) => Some(n)
    case None => row.state
  }

  /** As written, a value that looks the merged union territory's own name up
      is shown exactly as it came, in whatever case and padding, where the
      corrected lookup would show the name. */
  lemma DadraDisplayedRaw(row: FrictionRow)
    requires row.state.Some? && row.state.value != "" && LookupKey(row.state.value) == DadraKey
    ensures DisplayState(row) == row.state
    ensures RowNameCorrected(row) == Some(DadraName)
  {
    DadraKeyUnlisted();
    UnlistedAt(row.state.value, DadraKey);
    NormalizeUpdate(CanonicalStates, DadraKey, DadraName, row.state.value);
  }

  /** The badge colour of a friction level. */
  function BadgeColor(level: string): (color: string)
    ensures color == "red" <==> level == "High"
    ensures color == "yellow" <==> level == "Medium"
    ensures color == "green" <==> level != "High" && level != "Medium"
  {
    if level == "High" then "red"
    else if level == "Medium" then "yellow"
    else "green"
  }
}
