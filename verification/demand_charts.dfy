/** The demand charts: their own closed table of state spellings, the
    lower-case-and-trim lookup, the state drop-down, the state filter and the
    three demand counts of the bar chart. */
module DemandCharts {
  import opened Wrappers
  import opened Text
  import opened Seqs
  import opened Records
  import opened StateLookup

  // ---------------------------------------------------------------- the table

  // `CANONICAL_STATES` of the charts, in source order, one group per block of
  // lines (the longest block split in three).

  /** Lines 17-18 of the table. */
  const Group1: map<string, string> := map[
    "andaman & nicobar islands" := "Andaman & Nicobar Islands",
    "andaman and nicobar islands" := "Andaman & Nicobar Islands"
  ]
  /** Lines 20-27 of the table. */
  const Group2: map<string, string> := map[
    "andhra pradesh" := "Andhra Pradesh",
    "arunachal pradesh" := "Arunachal Pradesh",
    "assam" := "Assam",
    "bihar" := "Bihar",
    "chandigarh" := "Chandigarh",
    "chhattisgarh" := "Chhattisgarh",
    "delhi" := "Delhi",
    "goa" := "Goa"
  ]
  /** Lines 28-35 of the table. */
  const Group3: map<string, string> := map[
    "gujarat" := "Gujarat",
    "haryana" := "Haryana",
    "himachal pradesh" := "Himachal Pradesh",
    "jharkhand" := "Jharkhand",
    "karnataka" := "Karnataka",
    "kerala" := "Kerala",
    "ladakh" := "Ladakh",
    "lakshadweep" := "Lakshadweep"
  ]
  /** Lines 36-41 of the table. */
  const Group4: map<string, string> := map[
    "madhya pradesh" := "Madhya Pradesh",
    "maharashtra" := "Maharashtra",
    "manipur" := "Manipur",
    "meghalaya" := "Meghalaya",
    "mizoram" := "Mizoram",
    "nagaland" := "Nagaland"
  ]
  /** Lines 43-44 of the table. */
  const Group5: map<string, string> := map[
    "odisha" := "Odisha",
    "orissa" := "Odisha"
  ]
  /** Lines 46-47 of the table. */
  const Group6: map<string, string> := map[
    "pondicherry" := "Puducherry",
    "puducherry" := "Puducherry"
  ]
  /** Lines 49-56 of the table. */
  const Group7: map<string, string> := map[
    "punjab" := "Punjab",
    "rajasthan" := "Rajasthan",
    "sikkim" := "Sikkim",
    "tamil nadu" := "Tamil Nadu",
    "telangana" := "Telangana",
    "tripura" := "Tripura",
    "uttar pradesh" := "Uttar Pradesh",
    "uttarakhand" := "Uttarakhand"
  ]
  /** Lines 58-60 of the table. */
  const Group8: map<string, string> := map[
    "west bengal" := "West Bengal",
    "west bangal" := "West Bengal",
    "westbengal" := "West Bengal"
  ]
  /** Lines 62-63 of the table. */
  const Group9: map<string, string> := map[
    "jammu & kashmir" := "Jammu & Kashmir",
    "jammu and kashmir" := "Jammu & Kashmir"
  ]
  /** Lines 65-68 of the table. */
  const Group10: map<string, string> := map[
    "dadra & nagar haveli" := "Dadra & Nagar Haveli and Daman & Diu",
    "dadra and nagar haveli" := "Dadra & Nagar Haveli and Daman & Diu",
    "daman & diu" := "Dadra & Nagar Haveli and Daman & Diu",
    "daman and diu" := "Dadra & Nagar Haveli and Daman & Diu"
  ]

  const CanonicalStates: map<string, string> :=
    Group1 + Group2 + Group3 + Group4 + Group5 + Group6 + Group7 + Group8 + Group9 + Group10

  lemma GroupsProperA()
    ensures Proper(Group1) && Proper(Group2)
  {}

  lemma GroupsProperB()
    ensures Proper(Group3) && Proper(Group4)
  {}

  lemma GroupsProperC()
    ensures Proper(Group5) && Proper(Group6) && Proper(Group7)
  {}

  lemma GroupsProperD()
    ensures Proper(Group8) && Proper(Group9) && Proper(Group10)
  {}

  /** No key and no name of the table is empty. */
  lemma CanonicalStatesProper()
    ensures Proper(CanonicalStates)
  {
    GroupsProperA();
    GroupsProperB();
    GroupsProperC();
    GroupsProperD();
    UnionProper(Group1, Group2);
    UnionProper(Group1 + Group2, Group3);
    UnionProper(Group1 + Group2 + Group3, Group4);
    UnionProper(Group1 + Group2 + Group3 + Group4, Group5);
    UnionProper(Group1 + Group2 + Group3 + Group4 + Group5, Group6);
    UnionProper(Group1 + Group2 + Group3 + Group4 + Group5 + Group6, Group7);
    UnionProper(Group1 + Group2 + Group3 + Group4 + Group5 + Group6 + Group7, Group8);
    UnionProper(Group1 + Group2 + Group3 + Group4 + Group5 + Group6 + Group7 + Group8, Group9);
    UnionProper(Group1 + Group2 + Group3 + Group4 + Group5 + Group6 + Group7 + Group8 + Group9, Group10);
  }

  /** `normalizeState` of the charts. */
  function NormalizeState(raw: Option<string>): Option<string> {
    Normalize(CanonicalStates, raw)
  }

  // ---------------------------------------------------------------- single keys

  lemma TwoSpaceBengalUnlistedInGroups()
    ensures "west  bengal" !in Group1 && "west  bengal" !in Group2 && "west  bengal" !in Group3 && "west  bengal" !in Group4 && "west  bengal" !in Group5
    ensures "west  bengal" !in Group6 && "west  bengal" !in Group7 && "west  bengal" !in Group8 && "west  bengal" !in Group9 && "west  bengal" !in Group10
  {}

  /** Unlike the friction page's table, this one has no two-space `west  bengal`. */
  lemma TwoSpaceBengalUnlisted()
    ensures "west  bengal" !in CanonicalStates
  {
    TwoSpaceBengalUnlistedInGroups();
    UnionLookup(Group1, Group2, "west  bengal");
    UnionLookup(Group1 + Group2, Group3, "west  bengal");
    UnionLookup(Group1 + Group2 + Group3, Group4, "west  bengal");
    UnionLookup(Group1 + Group2 + Group3 + Group4, Group5, "west  bengal");
    UnionLookup(Group1 + Group2 + Group3 + Group4 + Group5, Group6, "west  bengal");
    UnionLookup(Group1 + Group2 + Group3 + Group4 + Group5 + Group6, Group7, "west  bengal");
    UnionLookup(Group1 + Group2 + Group3 + Group4 + Group5 + Group6 + Group7, Group8, "west  bengal");
    UnionLookup(Group1 + Group2 + Group3 + Group4 + Group5 + Group6 + Group7 + Group8, Group9, "west  bengal");
    UnionLookup(Group1 + Group2 + Group3 + Group4 + Group5 + Group6 + Group7 + Group8 + Group9, Group10, "west  bengal");
  }

  lemma DadraTheAmpUnlistedInGroups()
    ensures "the dadra & nagar haveli & daman & diu" !in Group1 && "the dadra & nagar haveli & daman & diu" !in Group2 && "the dadra & nagar haveli & daman & diu" !in Group3 && "the dadra & nagar haveli & daman & diu" !in Group4 && "the dadra & nagar haveli & daman & diu" !in Group5
    ensures "the dadra & nagar haveli & daman & diu" !in Group6 && "the dadra & nagar haveli & daman & diu" !in Group7 && "the dadra & nagar haveli & daman & diu" !in Group8 && "the dadra & nagar haveli & daman & diu" !in Group9 && "the dadra & nagar haveli & daman & diu" !in Group10
  {}

  /** Nor the spellings with a leading `the`. */
  lemma DadraTheAmpUnlisted()
    ensures "the dadra & nagar haveli & daman & diu" !in CanonicalStates
  {
    DadraTheAmpUnlistedInGroups();
    UnionLookup(Group1, Group2, "the dadra & nagar haveli & daman & diu");
    UnionLookup(Group1 + Group2, Group3, "the dadra & nagar haveli & daman & diu");
    UnionLookup(Group1 + Group2 + Group3, Group4, "the dadra & nagar haveli & daman & diu");
    UnionLookup(Group1 + Group2 + Group3 + Group4, Group5, "the dadra & nagar haveli & daman & diu");
    UnionLookup(Group1 + Group2 + Group3 + Group4 + Group5, Group6, "the dadra & nagar haveli & daman & diu");
    UnionLookup(Group1 + Group2 + Group3 + Group4 + Group5 + Group6, Group7, "the dadra & nagar haveli & daman & diu");
    UnionLookup(Group1 + Group2 + Group3 + Group4 + Group5 + Group6 + Group7, Group8, "the dadra & nagar haveli & daman & diu");
    UnionLookup(Group1 + Group2 + Group3 + Group4 + Group5 + Group6 + Group7 + Group8, Group9, "the dadra & nagar haveli & daman & diu");
    UnionLookup(Group1 + Group2 + Group3 + Group4 + Group5 + Group6 + Group7 + Group8 + Group9, Group10, "the dadra & nagar haveli & daman & diu");
  }

  lemma DadraTheAndUnlistedInGroups()
    ensures "the dadra and nagar haveli and daman and diu" !in Group1 && "the dadra and nagar haveli and daman and diu" !in Group2 && "the dadra and nagar haveli and daman and diu" !in Group3 && "the dadra and nagar haveli and daman and diu" !in Group4 && "the dadra and nagar haveli and daman and diu" !in Group5
    ensures "the dadra and nagar haveli and daman and diu" !in Group6 && "the dadra and nagar haveli and daman and diu" !in Group7 && "the dadra and nagar haveli and daman and diu" !in Group8 && "the dadra and nagar haveli and daman and diu" !in Group9 && "the dadra and nagar haveli and daman and diu" !in Group10
  {}

  lemma DadraTheAndUnlisted()
    ensures "the dadra and nagar haveli and daman and diu" !in CanonicalStates
  {
    DadraTheAndUnlistedInGroups();
    UnionLookup(Group1, Group2, "the dadra and nagar haveli and daman and diu");
    UnionLookup(Group1 + Group2, Group3, "the dadra and nagar haveli and daman and diu");
    UnionLookup(Group1 + Group2 + Group3, Group4, "the dadra and nagar haveli and daman and diu");
    UnionLookup(Group1 + Group2 + Group3 + Group4, Group5, "the dadra and nagar haveli and daman and diu");
    UnionLookup(Group1 + Group2 + Group3 + Group4 + Group5, Group6, "the dadra and nagar haveli and daman and diu");
    UnionLookup(Group1 + Group2 + Group3 + Group4 + Group5 + Group6, Group7, "the dadra and nagar haveli and daman and diu");
    UnionLookup(Group1 + Group2 + Group3 + Group4 + Group5 + Group6 + Group7, Group8, "the dadra and nagar haveli and daman and diu");
    UnionLookup(Group1 + Group2 + Group3 + Group4 + Group5 + Group6 + Group7 + Group8, Group9, "the dadra and nagar haveli and daman and diu");
    UnionLookup(Group1 + Group2 + Group3 + Group4 + Group5 + Group6 + Group7 + Group8 + Group9, Group10, "the dadra and nagar haveli and daman and diu");
  }

  lemma DadraNameUnlistedInGroups()
    ensures "dadra & nagar haveli and daman & diu" !in Group1 && "dadra & nagar haveli and daman & diu" !in Group2 && "dadra & nagar haveli and daman & diu" !in Group3 && "dadra & nagar haveli and daman & diu" !in Group4 && "dadra & nagar haveli and daman & diu" !in Group5
    ensures "dadra & nagar haveli and daman & diu" !in Group6 && "dadra & nagar haveli and daman & diu" !in Group7 && "dadra & nagar haveli and daman & diu" !in Group8 && "dadra & nagar haveli and daman & diu" !in Group9 && "dadra & nagar haveli and daman & diu" !in Group10
  {}

  /** Nor the lower-cased name it gives the merged union territory. */
  lemma DadraNameUnlisted()
    ensures "dadra & nagar haveli and daman & diu" !in CanonicalStates
  {
    DadraNameUnlistedInGroups();
    UnionLookup(Group1, Group2, "dadra & nagar haveli and daman & diu");
    UnionLookup(Group1 + Group2, Group3, "dadra & nagar haveli and daman & diu");
    UnionLookup(Group1 + Group2 + Group3, Group4, "dadra & nagar haveli and daman & diu");
    UnionLookup(Group1 + Group2 + Group3 + Group4, Group5, "dadra & nagar haveli and daman & diu");
    UnionLookup(Group1 + Group2 + Group3 + Group4 + Group5, Group6, "dadra & nagar haveli and daman & diu");
    UnionLookup(Group1 + Group2 + Group3 + Group4 + Group5 + Group6, Group7, "dadra & nagar haveli and daman & diu");
    UnionLookup(Group1 + Group2 + Group3 + Group4 + Group5 + Group6 + Group7, Group8, "dadra & nagar haveli and daman & diu");
    UnionLookup(Group1 + Group2 + Group3 + Group4 + Group5 + Group6 + Group7 + Group8, Group9, "dadra & nagar haveli and daman & diu");
    UnionLookup(Group1 + Group2 + Group3 + Group4 + Group5 + Group6 + Group7 + Group8 + Group9, Group10, "dadra & nagar haveli and daman & diu");
  }

  // ---------------------------------------------------------------- the lookup

  /** A value whose key is not listed is dropped. */
  lemma UnlistedLowered(raw: string, k: string)
    requires Lower(raw) == k && k != "" && !IsSpace(k[0]) && !IsSpace(k[|k| - 1]) && k !in CanonicalStates
    ensures NormalizeState(Some(raw)) == None
  {
    KeyOfLowered(raw, k);
    NormalizeAt(CanonicalStates, raw, k);
  }

  /** `West  Bengal` with two inner spaces is dropped here. */
  lemma TwoSpaceBengalDropped(raw: string)
    requires Lower(raw) == "west  bengal"
    ensures NormalizeState(Some(raw)) == None
  {
    TwoSpaceBengalUnlisted();
    UnlistedLowered(raw, "west  bengal");
  }

  /** The spellings with a leading `the`, in any case, are dropped here. */
  lemma DadraTheDropped(a: string, b: string)
    requires Lower(a) == "the dadra & nagar haveli & daman & diu"
    requires Lower(b) == "the dadra and nagar haveli and daman and diu"
    ensures NormalizeState(Some(a)) == None && NormalizeState(Some(b)) == None
  {
    DadraTheAmpUnlisted();
    UnlistedLowered(a, "the dadra & nagar haveli & daman & diu");
    DadraTheAndUnlisted();
    UnlistedLowered(b, "the dadra and nagar haveli and daman and diu");
  }

  /** The table's own name for the merged union territory is not recognised. */
  lemma DadraNameDropped()
    ensures NormalizeState(Some(DadraName)) == None
  {
    LowerDadraName();
    DadraNameUnlisted();
    UnlistedLowered(DadraName, DadraKey);
  }

  // ---------------------------------------------------------------- the charts

  /** `normalizeState(row.state)`. */
  function RowName(row: DistrictRow): Option<string> {
    NormalizeState(row.state)
  }

  /** Every name the charts derive is a non-empty name of the table. */
  lemma RowNameIsTableName(row: DistrictRow)
    ensures RowName(row).Some? ==> RowName(row).value in CanonicalStates.Values && RowName(row).value != ""
  {
    NormalizeMeans(CanonicalStates, row.state);
  }

  /** `states`: "All", then each recognised state once, in ascending order;
      every one of them is a name of the table. */
  method States(data: seq<DistrictRow>) returns (states: seq<string>)
    ensures |states| >= 1 && states[0] == "All" && StrictlySorted(states[1..])
    ensures forall n :: n in states[1..] <==> exists i :: 0 <= i < |data| && RowName(data[i]) == Some(n)
    ensures forall n :: n in states[1..] ==> n in CanonicalStates.Values
  {
    states := StateOptions(data, RowName);
    StateOptionsMeans(data, RowName);
    forall n | n in states[1..] ensures n in CanonicalStates.Values {
      var i :| 0 <= i < |data| && RowName(data[i]) == Some(n);
      RowNameIsTableName(data[i]);
    }
  }

  /** `filtered`. */
  function Filtered(data: seq<DistrictRow>, selection: string): seq<DistrictRow> {
    FilterByState(data, RowName, selection)
  }

  /** "All" keeps every row; a state keeps exactly the rows recognised as it,
      in their original order and as often as they occur. */
  lemma FilteredMeans(data: seq<DistrictRow>, selection: string)
    ensures selection == "All" ==> Filtered(data, selection) == data
    ensures selection != "All" ==>
              forall row :: row in Filtered(data, selection) <==> row in data && RowName(row) == Some(selection)
    ensures selection != "All" ==>
              && |Filtered(data, selection)| == Count(data, Selected(RowName, selection))
              && forall b :: 0 <= b <= |data| ==> Filter(data[..b], Selected(RowName, selection)) <= Filtered(data, selection)
  {
    if selection != "All" {
      FilterByStateMeans(data, RowName, selection);
    }
  }

  /** A row whose `Next_Month_Demand` is exactly `tag`. */
  function HasDemand(tag: string): DistrictRow -> bool {
    (row: DistrictRow) => row.demand == Some(tag)
  }

  /** What the charts render: "No data available", or the three bars. */
  datatype View = NoData | Chart(low: nat, medium: nat, high: nat)

  /** The early return on an empty selection, then `summary`. */
  function Render(data: seq<DistrictRow>, selection: string): (v: View)
    ensures v.NoData? <==> Filtered(data, selection) == []
    ensures v.Chart? ==> v.low == Count(Filtered(data, selection), HasDemand("Low Demand"))
    ensures v.Chart? ==> v.medium == Count(Filtered(data, selection), HasDemand("Medium Demand"))
    ensures v.Chart? ==> v.high == Count(Filtered(data, selection), HasDemand("High Demand"))
    ensures v.Chart? ==> v.low + v.medium + v.high <= |Filtered(data, selection)|
  {
    var rows := Filtered(data, selection);
    if |rows| == 0 then NoData
    else
      DisjointCounts(rows, HasDemand("Low Demand"), HasDemand("Medium Demand"), HasDemand("High Demand"));
      Chart(Count(rows, HasDemand("Low Demand")),
            Count(rows, HasDemand("Medium Demand")),
            Count(rows, HasDemand("High Demand")))
  }

  /** A row recognised as `selection` whose `Next_Month_Demand` is exactly `tag`. */
  function InStateWithDemand(selection: string, tag: string): DistrictRow -> bool {
    (row: DistrictRow) => RowName(row) == Some(selection) && row.demand == Some(tag)
  }

  /** Each bar, read off the input directly: under "All" the rows with that
      label, under a state the rows recognised as the state with that label. */
  lemma BarsCountRows(data: seq<DistrictRow>, selection: string)
    requires Filtered(data, selection) != []
    ensures var v := Render(data, selection);
            && v.Chart?
            && (selection == "All" ==>
                  v.low == Count(data, HasDemand("Low Demand")) && v.medium == Count(data, HasDemand("Medium Demand"))
                  && v.high == Count(data, HasDemand("High Demand")))
            && (selection != "All" ==>
                  v.low == Count(data, InStateWithDemand(selection, "Low Demand"))
                  && v.medium == Count(data, InStateWithDemand(selection, "Medium Demand"))
                  && v.high == Count(data, InStateWithDemand(selection, "High Demand")))
  {
    if selection != "All" {
      var sel := Selected(RowName, selection);
      CountOfFilter(data, sel, HasDemand("Low Demand"), InStateWithDemand(selection, "Low Demand"));
      CountOfFilter(data, sel, HasDemand("Medium Demand"), InStateWithDemand(selection, "Medium Demand"));
      CountOfFilter(data, sel, HasDemand("High Demand"), InStateWithDemand(selection, "High Demand"));
    }
  }

  /** The bars add up to the number of rows shown exactly when every row has
      one of the three labels; a row with any other label (or none) is in no
      bar. */
  lemma ChartAddsUp(data: seq<DistrictRow>, selection: string)
    requires Filtered(data, selection) != []
    ensures var v := Render(data, selection);
            var rows := Filtered(data, selection);
            v.Chart? &&
            (v.low + v.medium + v.high == |rows| <==>
               forall row :: row in rows ==> HasDemand("Low Demand")(row) || HasDemand("Medium Demand")(row) || HasDemand("High Demand")(row))
  {
    var rows := Filtered(data, selection);
    DisjointCounts(rows, HasDemand("Low Demand"), HasDemand("Medium Demand"), HasDemand("High Demand"));
  }

  /** A state no row is recognised as shows "No data available". */
  lemma StateWithoutRows(data: seq<DistrictRow>, selection: string)
    requires selection != "All"
    requires forall row :: row in data ==> RowName(row) != Some(selection)
    ensures Render(data, selection) == NoData
  {
    FilterByStateMeans(data, RowName, selection);
    assert forall row :: row in data ==> !Selected(RowName, selection)(row);
  }
}
