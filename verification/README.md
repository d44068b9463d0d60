# Aadhaar analytics dashboard: name canonicalisation, de-duplication and aggregation

This project models the deterministic core of an Aadhaar analytics
dashboard and proves properties about it. The dashboard's pieces are:

- a React front end: the district table, the India demand map, the
  friction analysis page, the demand charts and the friction/dependency
  heatmap;
- a FastAPI back end;
- offline Python scripts that build its CSV datasets.

The model covers the code that cleans state and district names, drops
duplicate rows, groups and counts rows, and turns numbers into labels.

One module stands for each source file:

| module | source |
|---|---|
| `DistrictTable` | `DistrictTable.jsx` |
| `IndiaDemandMap` | `IndiaDemandMap.jsx` |
| `FrictionAnalysis` | `FrictionAnalysis.jsx` |
| `DemandCharts` | `DemandCharts.jsx` |
| `FrictionHeatmap` | `FrictionHeatmap.jsx` |
| `BackendFriction` | the `/friction-age-analysis` handler of `backend/api.py` |
| `BackendServices` | signup, login, centres, services and documents in `backend/api.py` |
| `DistrictCanonical` | `scripts/generate_district_canonical.py` |
| `DistrictVariants` | `scripts/report_district_variants.py` |
| `AndRewriter` | `scripts/replace_and_with_amp.py` |
| `DemandForecast` | `src/06_forecast_demand.py` |
| `AdminMaster` | `src/07_admin_master_dataset.py` |

Shared pieces:

- `Text` holds the ASCII character classes, `lower`, `strip`, the split/join
  idiom, the `\band\b` substitution and title-casing.
- `Seqs` holds filters, counts, de-duplication in first-seen order, and an
  insertion sort that is stable and takes the order as a parameter.
- `StateLookup` holds the closed-vocabulary state lookup, the drop-down and
  the filter that the friction page and the charts share.
- `Records` holds the rows passed between the back end and the pages.
- `FrictionPipeline` follows one record from the back end to the friction
  page.

The model follows the form of each source file:

- Pure code is modelled as functions with lemmas.
- A loop that fills a map, a set or a list is modelled as a method with its
  invariants. The method is proved equal to the function that specifies it.
  Examples are `DistrictTable.CleanData`, `IndiaDemandMap.AggregateStates`,
  `StateLookup.CollectStates`, `DistrictCanonical.CountSpellings` and
  `DistrictVariants.CollectVariants`.
- The in-place column rename is a class, `AdminMaster.AdminView`.

Dataframes are sequences of records. A pandas NaN, JSON `null` and
JavaScript `undefined` are all `None`.

## Model

| member | source | states |
|---|---|---|
| DistrictTable.Priority | frontend/src/components/DistrictTable.jsx:6-10 | an unknown label ranks 0; every rank is at most 3 |
| DistrictTable.PriorityOrder | frontend/src/components/DistrictTable.jsx:6-10 | High outranks Medium, Medium outranks Low, and Low outranks any other label |
| DistrictTable.CanonicalizeIsCanonical | frontend/src/components/DistrictTable.jsx:15-21 | every canonical key has no upper-case letter, no en or em dash, no standalone "and", no doubled space and nothing at either end |
| DistrictTable.CanonicalizeIdempotent | frontend/src/components/DistrictTable.jsx:15-21 | canonicalising twice gives the same key as canonicalising once |
| DistrictTable.CanonicalHasNoDoubleSpace | frontend/src/components/DistrictTable.jsx:20-21 | a key has no two consecutive spaces and starts and ends with a non-space character |
| DistrictTable.CanonicalizeEmptyIffBlank | frontend/src/components/DistrictTable.jsx:15-21 | the key is empty exactly when the input is all whitespace |
| DistrictTable.CanonicalizeOfTitleCase | frontend/src/components/DistrictTable.jsx:15-21 | capitalising words first does not change the key (the title-casing it is composed with is line 126) |
| DistrictTable.NormalizeState | frontend/src/components/DistrictTable.jsx:49-55 | the result is null exactly when the input is null, empty or all digits |
| DistrictTable.NormalizeStateResult | frontend/src/components/DistrictTable.jsx:49-55 | a listed key gives exactly `STATE_MAP[key]`; an unlisted key gives the key itself with no lower-case letter left at a word start and every other character unchanged; the name is empty only for a blank input |
| DistrictTable.NormalizeStateIdempotent | frontend/src/components/DistrictTable.jsx:49-55 | normalising a title-cased fallback name again returns it unchanged |
| DistrictTable.PaddedDigitsAccepted | frontend/src/components/DistrictTable.jsx:51-54 | "123" is rejected, but " 123" passes the digit test and comes back as "123" |
| DistrictTable.StateAliases | frontend/src/components/DistrictTable.jsx:26-47 | "orissa" and "odisha" name Odisha; "west bangal", "westbengal" and "west bengal" name West Bengal |
| DistrictTable.AliasesConverge | frontend/src/components/DistrictTable.jsx:34-55 | any letter case of "orissa" and of "odisha" normalises to "Odisha" |
| DistrictTable.BengalAliasesConverge | frontend/src/components/DistrictTable.jsx:44-55 | any letter case of "West Bangal" and of "westbengal" normalises to "West Bengal" |
| DistrictTable.StateRejections | frontend/src/components/DistrictTable.jsx:50-53 | "123", "" and null all give null |
| DistrictTable.StateMapDeadKeys | frontend/src/components/DistrictTable.jsx:19-45 | no key that canonicalize produces is one of the two table keys spelled with "and", so those entries are never used |
| DistrictTable.NormalizeDistrict | frontend/src/components/DistrictTable.jsx:120-127 | the result is null exactly when the input is null or empty |
| DistrictTable.NormalizeDistrictResult | frontend/src/components/DistrictTable.jsx:120-127 | a listed key gives exactly its table value, which the capitalisation leaves alone; an unlisted key gives the key itself with no lower-case letter left at a word start and every other character unchanged; the name is empty only for a blank input |
| DistrictTable.DistrictValuesAreTitleCase | frontend/src/components/DistrictTable.jsx:60-126 | every district value of the table is already a fixpoint of the capitalisation step |
| DistrictTable.NormalizeDistrictIdempotent | frontend/src/components/DistrictTable.jsx:120-127 | normalising a normalised district again returns it unchanged |
| DistrictTable.ComponentKeeps | frontend/src/components/DistrictTable.jsx:143-147 | a row takes part exactly when its state is present, not blank and not all digits, its district is present and not blank, and its demand label is present and not blank |
| DistrictTable.Absorb | frontend/src/components/DistrictTable.jsx:143-161 | one callback: skip the row, insert it under a new key, or replace the stored row when the newcomer ranks strictly higher |
| DistrictTable.CleanData | frontend/src/components/DistrictTable.jsx:139-166 | the loop leaves exactly the de-duplicated table, listed in first-insertion order |
| DistrictTable.DedupValid | frontend/src/components/DistrictTable.jsx:140-165 | each key appears once in the order, and the order and the map hold the same keys |
| DistrictTable.DedupOrder | frontend/src/components/DistrictTable.jsx:152-165 | the keys are listed in order of first appearance, each once |
| DistrictTable.KeysMeans | frontend/src/components/DistrictTable.jsx:143-149 | a key is among the row keys exactly when some kept row has it |
| DistrictTable.DedupHasKey | frontend/src/components/DistrictTable.jsx:139-166 | the output has a row for a key exactly when some kept input row has that key |
| DistrictTable.StoredRowOrigin | frontend/src/components/DistrictTable.jsx:153-160 | the stored row is an input row with that key, with its state and district replaced and every other field unchanged |
| DistrictTable.DedupKeepsHighest | frontend/src/components/DistrictTable.jsx:150-161 | with trimmed labels the stored row is the first row of highest priority for its key |
| DistrictTable.ModesAgreeOnTrimmedLabels | frontend/src/components/DistrictTable.jsx:145-157 | when no label carries surrounding whitespace, the code as written and the corrected comparison give the same table |
| DistrictTable.TwoRows | frontend/src/components/DistrictTable.jsx:152-161 | for two rows with one key, the second replaces the first only when it ranks strictly higher; a tie keeps the first |
| DistrictTable.HighBeatsLow | frontend/src/components/DistrictTable.jsx:150-161 | a High row beats a Low row with the same key, in either order |
| DistrictTable.OdishaScenario | frontend/src/components/DistrictTable.jsx:120-166 | an "orissa" Low row followed by an "Odisha" High row for the same district yields one row: the High row, under the name Odisha (the alias entries are lines 34-35) |
| DistrictTable.TrimFinding | frontend/src/components/DistrictTable.jsx:145-161 | as written, " High Demand" followed by "Low Demand" for one key keeps the Low row; the corrected comparison keeps the High row |
| DistrictTable.StateOptions | frontend/src/components/DistrictTable.jsx:171-174 | "All", then each distinct state exactly once, in strictly ascending order |
| DistrictTable.FilterRows | frontend/src/components/DistrictTable.jsx:179-188 | a row is kept exactly when it matches the state filter and the lower-cased search occurs in its lower-cased state or district; the result holds the matching input rows in their original order, each as often as it occurs |
| DistrictTable.FilterShowsAll | frontend/src/components/DistrictTable.jsx:179-188 | "All" with an empty search shows every row in order |
| DistrictTable.SearchIgnoresCase | frontend/src/components/DistrictTable.jsx:184-185 | the search text's letter case does not matter |
| DistrictTable.StateFilterNarrows | frontend/src/components/DistrictTable.jsx:180-181 | a state selection only removes rows that "All" would show |
| DistrictTable.BadgeClass | frontend/src/components/DistrictTable.jsx:190-194 | red exactly for "High Demand", yellow exactly for "Medium Demand", green for anything else |
| IndiaDemandMap.AddRow | frontend/src/components/IndiaDemandMap.jsx:61-85 | one callback: skip a row with a falsy state; otherwise create the counters if needed and add one row to them |
| IndiaDemandMap.AggregateStates | frontend/src/components/IndiaDemandMap.jsx:59-86 | the loop yields exactly the per-state counters of the whole input |
| IndiaDemandMap.AggregateCounts | frontend/src/components/IndiaDemandMap.jsx:59-86 | for each raw state: total counts its rows, high and medium count its rows with exactly that label, and low counts its rows with any other label; duplicates all count |
| IndiaDemandMap.AggregateWellFormed | frontend/src/components/IndiaDemandMap.jsx:64-85 | every entry has total = high + medium + low > 0 and score = 3·high + 2·medium + low |
| IndiaDemandMap.AggregateHasState | frontend/src/components/IndiaDemandMap.jsx:62-64 | a state has an entry exactly when some row carries it, unnormalised |
| IndiaDemandMap.ScoreBounds | frontend/src/components/IndiaDemandMap.jsx:74-85 | total ≤ score ≤ 3·total, so the average lies in [1, 3] |
| IndiaDemandMap.LevelThresholds | frontend/src/components/IndiaDemandMap.jsx:89-97 | no data gives Low; average > 2.3 gives High; average > 1.6 gives Medium; otherwise Low. The average is compared by cross-multiplying |
| IndiaDemandMap.LevelMonotone | frontend/src/components/IndiaDemandMap.jsx:93-96 | a higher average never gives a lower level |
| IndiaDemandMap.OnlyOtherLabelsIsLow | frontend/src/components/IndiaDemandMap.jsx:82-96 | a state whose rows have only unrecognised labels averages 1 and is Low |
| IndiaDemandMap.Color | frontend/src/components/IndiaDemandMap.jsx:18-22 | red exactly for High, yellow exactly for Medium, green otherwise |
| IndiaDemandMap.StateTooltip | frontend/src/components/IndiaDemandMap.jsx:115-124 | the tooltip carries the state's name and the level `getStateDemandLevel` gives it; a state with no data shows Low and zero counts, otherwise its own counters |
| IndiaDemandMap.TooltipLevelFromCounts | frontend/src/components/IndiaDemandMap.jsx:89-124 | the tooltip's "Demand:" level is the one its own counts give: weighted average (3·high + 2·medium + low) / total above 2.3 is High, in (1.6, 2.3] Medium, otherwise or with no rows Low |
| IndiaDemandMap.TooltipAddsUp | frontend/src/components/IndiaDemandMap.jsx:59-124 | the tooltip's high + medium + low equals its total, which is the number of rows for that state |
| StateLookup.NormalizeMeans | frontend/src/components/FrictionAnalysis.jsx:61-65 | the lookup gives null or the table's name for the lower-cased, trimmed key, and a name exactly when that key is listed |
| StateLookup.NormalizeIgnoresCaseAndPadding | frontend/src/components/DemandCharts.jsx:72-76 | inputs that agree after lower-casing and trimming get the same result |
| StateLookup.CollectStates | frontend/src/components/FrictionAnalysis.jsx:95-99 | the set ends up with each recognised name once, in first-insertion order |
| StateLookup.StateOptionsMeans | frontend/src/components/DemandCharts.jsx:84-91 | "All", then every recognised name exactly once, in ascending order, and nothing else |
| StateLookup.FilterByStateMeans | frontend/src/components/FrictionAnalysis.jsx:102-103 | under a state, exactly the rows recognised as that state remain, in their original order |
| StateLookup.UnrecognisedNeverSelected | frontend/src/components/DemandCharts.jsx:96-99 | a row whose state is not recognised never appears under a state |
| FrictionAnalysis.CanonicalStatesProper | frontend/src/components/FrictionAnalysis.jsx:7-58 | every key and every name of the table is non-empty |
| FrictionAnalysis.RowNameIsTableName | frontend/src/components/FrictionAnalysis.jsx:61-65 | the lookup gives null or a non-empty name from the page's table, never anything else; the corrected lookup draws on the same names |
| FrictionAnalysis.TwoSpaceBengal | frontend/src/components/FrictionAnalysis.jsx:47-64 | "West  Bengal" with two inner spaces, in any letter case, is found |
| FrictionAnalysis.ThreeSpaceBengal | frontend/src/components/FrictionAnalysis.jsx:44-64 | with three inner spaces it gives null: inner whitespace is not collapsed |
| FrictionAnalysis.OrissaIsOdisha | frontend/src/components/FrictionAnalysis.jsx:32-65 | "orissa", in any letter case, gives "Odisha" from the page's lookup, and from the corrected one too |
| FrictionAnalysis.DadraSpellingsListed | frontend/src/components/FrictionAnalysis.jsx:50-57 | all eight Dadra and Daman spellings map to "Dadra & Nagar Haveli and Daman & Diu" |
| FrictionAnalysis.DadraLongSpelling | frontend/src/components/FrictionAnalysis.jsx:55-65 | the fully spelled-out form, in any letter case, gives the merged name from the page's lookup, and from the corrected one too |
| FrictionAnalysis.DadraTheSpelling | frontend/src/components/FrictionAnalysis.jsx:56-65 | the spelling with a leading "the", in any letter case, gives the merged name from the page's lookup, and from the corrected one too |
| FrictionAnalysis.DadraNameDropped | frontend/src/components/FrictionAnalysis.jsx:7-65 | as written, the table's own merged name is not recognised |
| FrictionAnalysis.DadraNameKept | frontend/src/components/FrictionAnalysis.jsx:50-65 | with the name's own key added, the merged name is recognised as itself |
| FrictionAnalysis.CorrectionOnlyAddsDadra | frontend/src/components/FrictionAnalysis.jsx:61-65 | the corrected lookup differs from the original only on the merged name's key |
| FrictionAnalysis.States | frontend/src/components/FrictionAnalysis.jsx:94-100 | "All", then the distinct names the page's lookup recognises, in strictly ascending order, each a name of the table |
| FrictionAnalysis.FilteredMeans | frontend/src/components/FrictionAnalysis.jsx:102-133 | "All" returns the data unchanged; a state keeps exactly the rows the page's lookup recognises as it, in their original order, each as often as it occurs; the result is empty ("No data available for this state") exactly when no row is recognised as that state |
| FrictionAnalysis.DadraRows | frontend/src/components/FrictionAnalysis.jsx:61-103 | on the page as written, a row named "Dadra & Nagar Haveli and Daman & Diu" is recognised as no state and is hidden under every state; with the corrected lookup it appears under that name |
| FrictionAnalysis.DisplayState | frontend/src/components/FrictionAnalysis.jsx:151 | the cell shows the name the page's lookup recognises, and the raw value exactly when there is none; a row with a state always shows something |
| FrictionAnalysis.DadraDisplayedRaw | frontend/src/components/FrictionAnalysis.jsx:151 | as written, a value that looks up the merged territory's own key is shown as it came, in its own case and padding, while the corrected lookup (lines 61-65 with the key added) names it |
| FrictionAnalysis.BadgeColor | frontend/src/components/FrictionAnalysis.jsx:155-157 | red exactly for High, yellow exactly for Medium, green otherwise |
| DemandCharts.CanonicalStatesProper | frontend/src/components/DemandCharts.jsx:16-69 | every key and every name of the charts' table is non-empty |
| DemandCharts.RowNameIsTableName | frontend/src/components/DemandCharts.jsx:72-76 | the lookup gives null or a non-empty name from the table |
| DemandCharts.TwoSpaceBengalDropped | frontend/src/components/DemandCharts.jsx:16-76 | unlike the friction page, this table has no two-space "west  bengal", so that spelling gives null |
| DemandCharts.DadraTheDropped | frontend/src/components/DemandCharts.jsx:65-76 | the "the dadra …" spellings give null here |
| DemandCharts.DadraNameDropped | frontend/src/components/DemandCharts.jsx:65-76 | the table's own merged name is not recognised |
| DemandCharts.States | frontend/src/components/DemandCharts.jsx:84-91 | "All", then the distinct recognised names in strictly ascending order |
| DemandCharts.FilteredMeans | frontend/src/components/DemandCharts.jsx:96-99 | "All" keeps every row; a state keeps exactly the rows recognised as it, in their original order, each as often as it occurs |
| DemandCharts.Render | frontend/src/components/DemandCharts.jsx:101-130 | an empty selection renders "No data available"; otherwise each bar is the number of rows shown whose `Next_Month_Demand` is exactly that label, and the bars add up to at most the rows shown |
| DemandCharts.BarsCountRows | frontend/src/components/DemandCharts.jsx:96-130 | read off the input directly, each bar counts the rows with that label under "All", and under a state the rows recognised as that state with that label |
| DemandCharts.ChartAddsUp | frontend/src/components/DemandCharts.jsx:108-130 | the bars add up to the rows shown exactly when every row has one of the three labels; other labels count nowhere |
| DemandCharts.StateWithoutRows | frontend/src/components/DemandCharts.jsx:96-103 | a state that no row is recognised as renders "No data available" |
| FrictionHeatmap.GetCount | frontend/src/components/FrictionHeatmap.jsx:9-14 | a cell is at most the number of rows, and zero exactly when no row has both labels |
| FrictionHeatmap.Grid | frontend/src/components/FrictionHeatmap.jsx:2-40 | the grid is always 3 friction rows by 3 dependency columns, whatever the data |
| FrictionHeatmap.CellCount | frontend/src/components/FrictionHeatmap.jsx:9-38 | cell (f, d) counts the rows labelled exactly f and d |
| FrictionHeatmap.AtMostOneCell | frontend/src/components/FrictionHeatmap.jsx:9-14 | a row lands in at most one cell |
| FrictionHeatmap.OffVocabularyInNoCell | frontend/src/components/FrictionHeatmap.jsx:9-14 | a row with a label outside the vocabularies is counted in no cell |
| FrictionHeatmap.TrailingSpaceInNoCell | frontend/src/components/FrictionHeatmap.jsx:12 | a friction label with a trailing space is counted in no cell |
| FrictionHeatmap.GridAddsUp | frontend/src/components/FrictionHeatmap.jsx:9-40 | the cells add up to the rows whose labels are both in the vocabularies: at most the data length, with equality exactly when every row's labels are |
| BackendFriction.CanonicalStatesProper | backend/api.py:106-157 | every key and every name of the back end's table is non-empty |
| BackendFriction.StateKey | backend/api.py:163 | the key is the words of the lower-cased value, joined by single spaces |
| BackendFriction.NormalizeStateMeans | backend/api.py:159-164 | a falsy input gives None; a listed key gives its name; an unlisted key returns the raw input unchanged |
| BackendFriction.NormalizeIgnoresCaseAndSpacing | backend/api.py:159-164 | inputs with the same key get the same name, and the key is a fixpoint of the key function |
| BackendFriction.JammuAndKashmir | backend/api.py:147-164 | "Jammu and Kashmir" and "Jammu & Kashmir", in any case and spacing, give "Jammu & Kashmir" |
| BackendFriction.DadraSpelling | backend/api.py:154-164 | the spelled-out Dadra and Daman name gives "Dadra & Nagar Haveli and Daman & Diu" |
| BackendFriction.DadraNameKept | backend/api.py:149-164 | the merged name is not a key, so it passes through unchanged as the raw input |
| BackendFriction.TwoSpaceKeyUnreachable | backend/api.py:146-163 | no key has two consecutive spaces, so removing the "west  bengal" entry changes nothing |
| BackendFriction.RelabelAges | backend/api.py:186-190 | each age-group label is rewritten by the three replacements and the " years" suffix |
| BackendFriction.YoungestLabel | backend/api.py:187-190 | "age_0_5" becomes "0-5 years" |
| BackendFriction.MiddleLabel | backend/api.py:187-190 | "age_5_17" becomes "5-17 years" |
| BackendFriction.OldestLabel | backend/api.py:187-190 | "age_18_greater" becomes "18+ years" |
| BackendFriction.CleanedMeans | backend/api.py:179-184 | the cleaned rows are exactly the rows whose state is not all digits and has a name, with the name applied |
| BackendFriction.GroupKeys | backend/api.py:193-199 | the groups are each (state, age group) that occurs, once each, in ascending order |
| BackendFriction.Aggregate | backend/api.py:193-210 | one record per group, carrying the group's sum and its friction label |
| BackendFriction.AggregateRecords | backend/api.py:193-210 | every record's count is the sum of its group's counts, and its label classifies that sum |
| BackendFriction.AggregateCovers | backend/api.py:193-199 | a (state, age group) pair has a record exactly when some cleaned row has it |
| BackendFriction.AggregateOrdered | backend/api.py:193-199 | the records are in strictly ascending key order, so each key appears once |
| BackendFriction.CountsConserved | backend/api.py:193-199 | the counts of the records add up to the total count of the cleaned rows |
| BackendFriction.ClassifyFriction | backend/api.py:202-208 | High exactly above 50000, Medium exactly in (10000, 50000], Low otherwise |
| BackendFriction.ClassifyMonotone | backend/api.py:202-208 | the label is monotone; 50000 is Medium and 10000 is Low |
| FrictionPipeline.DigitKey | backend/api.py:163-180 | the key of an all-digit value starts with a digit, so it never names a listed state |
| FrictionPipeline.SpelledOutDadraReplied | backend/api.py:154-199 | a row spelling the merged territory out in words reaches the reply under the merged name |
| FrictionPipeline.DadraRecordOnPage | frontend/src/components/FrictionAnalysis.jsx:61-65 | the page as written drops a record under the merged name, and the corrected page keeps it |
| FrictionPipeline.BadgeFollowsVolume | frontend/src/components/FrictionAnalysis.jsx:155-157 | the badge is red above 50000 updates, yellow above 10000, and green otherwise |
| BackendServices.Signup | backend/api.py:324-329 | signup fails exactly for an admin whose e-mail does not end in "@uidai.gov.in" |
| BackendServices.Login | backend/api.py:331-341 | login succeeds exactly for an admin with the official domain or for any user, and the role is the account type |
| BackendServices.SignupThenLogin | backend/api.py:324-341 | for admins and users, signup succeeds exactly when login does |
| BackendServices.OtherTypesLockedOut | backend/api.py:327-341 | any other account type can sign up but never log in |
| BackendServices.AdminDomainIsCaseSensitive | backend/api.py:334 | the domain test is case-sensitive |
| BackendServices.SearchByTextMeans | backend/api.py:350-356 | a centre is returned exactly when its lower-cased city or state contains the trimmed, lower-cased query; the matching centres come in their original order, each as often as it occurs, without a distance |
| BackendServices.NearestMeans | backend/api.py:359-378 | at most five centres are returned, in non-decreasing distance, and none of the centres left out is nearer |
| BackendServices.Nearest | backend/api.py:371-378 | the five nearest are the first five of the stable sort by distance |
| BackendServices.GetCenters | backend/api.py:343-380 | a non-empty city searches by text; otherwise a position gives the nearest five; otherwise every centre |
| BackendServices.ServicesHaveDocuments | backend/api.py:382-392 | every listed service has a non-empty checklist, and every checklist belongs to a listed service |
| BackendServices.Documents | backend/api.py:394-398 | a known id gives its checklist, an unknown id gives [], and no id gives every checklist |
| DistrictCanonical.NormStateShape | scripts/generate_district_canonical.py:18-20 | the key is lower case, single-spaced and trimmed; NaN gives "" |
| DistrictCanonical.NormDistrictShape | scripts/generate_district_canonical.py:22-26 | the key holds only a-z, 0-9 and single inner spaces |
| DistrictCanonical.NormDistrictIdempotent | scripts/generate_district_canonical.py:22-26 | normalising a key again leaves it unchanged |
| DistrictCanonical.NormDistrictIgnoresPadding | scripts/generate_district_canonical.py:25-32 | stripping the spelling first does not change its key |
| DistrictCanonical.CountSpellings | scripts/generate_district_canonical.py:28-35 | the row loop yields the nested counts of the whole input |
| DistrictCanonical.CountsFromMeans | scripts/generate_district_canonical.py:28-35 | a (state, district) pair is present exactly when some kept row has it, and its tally counts each stripped spelling's rows, in first-seen order |
| DistrictCanonical.BuildMapping | scripts/generate_district_canonical.py:38-43 | the nested loops yield the best spelling for every pair |
| DistrictCanonical.CanonicalCovers | scripts/generate_district_canonical.py:37-43 | the mapping has exactly one entry per pair seen |
| DistrictCanonical.CanonicalSpelling | scripts/generate_district_canonical.py:42-43 | the chosen spelling occurs in its group and no spelling of the group occurs more often |
| DistrictCanonical.CanonicalFirstTie | scripts/generate_district_canonical.py:42 | among equally frequent spellings, the first one met wins |
| DistrictCanonical.CanonicalRoundTrip | scripts/generate_district_canonical.py:26-43 | normalising the chosen spelling gives back the district key |
| DistrictCanonical.SpellingNormalises | scripts/generate_district_canonical.py:30-34 | every spelling counted in a group normalises to that group's district key |
| DistrictVariants.KeyOfMeans | scripts/report_district_variants.py:11-25 | a row's key is (state key, joined district words), or none when either is empty |
| DistrictVariants.CollectVariants | scripts/report_district_variants.py:19-26 | the row loop yields the variant sets of the whole input |
| DistrictVariants.VariantsMeans | scripts/report_district_variants.py:19-26 | a group exists exactly when some row has its key, and it holds exactly the unstripped spellings of those rows, each once |
| DistrictVariants.ProblemMeans | scripts/report_district_variants.py:28 | a group is reported exactly when two of its rows spell the district differently |
| DistrictVariants.ProblemKeysMeans | scripts/report_district_variants.py:28-29 | the reported keys are ascending and distinct, and exactly those with disagreeing spellings |
| DistrictVariants.ListingMeans | scripts/report_district_variants.py:37-38 | each group's variants are listed in strictly ascending order |
| DistrictVariants.ReportMeans | scripts/report_district_variants.py:28-38 | the report counts every problem group, prints the first min(total, 200) in key order, and lists each group's variants sorted |
| DistrictVariants.ReportVariants | scripts/report_district_variants.py:19-38 | the script's loops produce exactly that report |
| DistrictVariants.TrailingSpaceIsAVariant | scripts/report_district_variants.py:22-28 | a spelling and the same spelling with a trailing space share a key but count as two variants |
| AndRewriter.ListCsv | scripts/replace_and_with_amp.py:11 | the CSV files of the directory, each once |
| AndRewriter.RewriteFiles | scripts/replace_and_with_amp.py:11-16 | every CSV file is rewritten, and exactly the changed files are listed, in sorted order |
| AndRewriter.ReplaceAndInData | scripts/replace_and_with_amp.py:4-23 | a missing directory gives exit status 1 and changes nothing; otherwise the files are rewritten and the summary is printed |
| AndRewriter.ChangesMeans | scripts/replace_and_with_amp.py:9-14 | a file changes exactly when it holds a standalone "and" in any letter case; afterwards it holds none |
| AndRewriter.SecondRunChangesNothing | scripts/replace_and_with_amp.py:9-13 | the substitution is idempotent, so a second run lists no file |
| AndRewriter.OtherFilesKept | scripts/replace_and_with_amp.py:11 | files that are not CSV are left alone |
| AndRewriter.SummaryMeans | scripts/replace_and_with_amp.py:18-23 | no changes prints "No changes made"; otherwise the header is followed by one line per changed file |
| Text.ReplaceAndChangesIff | scripts/replace_and_with_amp.py:9-13 | the substitution leaves a text unchanged exactly when it has no standalone "and"; "and" inside a word such as Jharkhand is not standalone |
| Text.ReplaceAndIdempotent | scripts/replace_and_with_amp.py:9-13 | substituting twice is the same as substituting once |
| Text.HasNoStandaloneAndMeans | scripts/replace_and_with_amp.py:9 | "no standalone and" means no position where "and" starts after a non-word character and ends before one |
| Text.SplitJoinIdempotent | backend/api.py:163 | joining the words of a joined string gives it back |
| DemandForecast.Hits | src/06_forecast_demand.py:17-21 | the biometric totals of exactly the rows matching on state, district and date |
| DemandForecast.HitsCount | src/06_forecast_demand.py:17-21 | there is one hit per matching biometric row, duplicates included |
| DemandForecast.JoinBioUnmatched | src/06_forecast_demand.py:17-27 | a demographic row with no biometric match gives one row with bio_total 0 |
| DemandForecast.JoinBioAt | src/06_forecast_demand.py:17-27 | a matched demographic row gives one row per hit, each with total_updates = demo_total + bio_total |
| DemandForecast.JoinBioCount | src/06_forecast_demand.py:17-21 | the join gives one row per matching biometric row, duplicates included, and a single row when none matches |
| DemandForecast.MergeKeepsDemo | src/06_forecast_demand.py:17-21 | every demographic row survives the left join |
| DemandForecast.MergeFromDemo | src/06_forecast_demand.py:17-21 | every joined row comes from a demographic row |
| DemandForecast.Ordered | src/06_forecast_demand.py:30 | the sort is a permutation of the joined rows |
| DemandForecast.OrderedIsSorted | src/06_forecast_demand.py:30 | the rows are ordered by (state, district, date) |
| DemandForecast.WindowShape | src/06_forecast_demand.py:33-36 | a row's window holds 1 to 3 earlier-or-equal rows of its own district, ending with the row itself |
| DemandForecast.FirstRowOwnTotal | src/06_forecast_demand.py:35 | a district's first row forecasts its own total |
| DemandForecast.ForecastBounds | src/06_forecast_demand.py:35 | the forecast lies between the smallest and the largest total of its window |
| DemandForecast.RollingMean | src/06_forecast_demand.py:30-36 | after the sort, the forecast is the mean of the row's total and up to two preceding totals of the same district, with a short window only at the district's start |
| DemandForecast.LevelMeans | src/06_forecast_demand.py:39-51 | Low below 500, Medium from 500 to 2000 inclusive, High above 2000; the three are exclusive and exhaustive |
| DemandForecast.LevelMonotone | src/06_forecast_demand.py:39-51 | a larger forecast never gets a lower level |
| DemandForecast.ActionMeans | src/06_forecast_demand.py:54-62 | High gives the van, Medium gives extended hours, and anything else gives no action |
| DemandForecast.RowAtMeans | src/06_forecast_demand.py:33-68 | each output row has the rolling forecast, the level from the thresholds and the action for that level |
| DemandForecast.ForecastTableMeans | src/06_forecast_demand.py:30-68 | the output has one row per sorted joined row, in order |
| AdminMaster.LatestMeans | src/07_admin_master_dataset.py:11-16 | one forecast row per district present, drawn from the input and carrying its group's latest date |
| AdminMaster.MatchesOfEmpty | src/07_admin_master_dataset.py:19-28 | a key has no match exactly when no right-hand row carries it |
| AdminMaster.MatchesOfUnique | src/07_admin_master_dataset.py:19-28 | at most one match when the right-hand keys are distinct |
| AdminMaster.JoinRowMeans | src/07_admin_master_dataset.py:19-28 | a left row pairs with each matching right row, or stays alone with empty columns when nothing matches |
| AdminMaster.LeftJoinRows | src/07_admin_master_dataset.py:19-28 | every joined row comes from a left row and is paired only with a row of the same key |
| AdminMaster.LeftJoinOneToOne | src/07_admin_master_dataset.py:21-27 | against distinct right-hand keys, the join keeps the left rows one for one, in order |
| AdminMaster.AdminRowsKeepLfi | src/07_admin_master_dataset.py:19-28 | every friction row appears at least once in the output |
| AdminMaster.AdminRowForecast | src/07_admin_master_dataset.py:11-28 | a district without a forecast gets empty demand and action; otherwise they come from its latest forecast |
| AdminMaster.AdminRowDependency | src/07_admin_master_dataset.py:20 | the dependency columns are empty exactly when no dependency row matches, and otherwise come from a matching row |
| AdminMaster.AdminRowLabels | src/07_admin_master_dataset.py:22-27 | a carried demand label is one of the three levels, and its action is the one for that level |
| AdminMaster.AdminView.constructor | src/07_admin_master_dataset.py:19-28 | the merged frame: its columns and its rows |
| AdminMaster.AdminView.Rename | src/07_admin_master_dataset.py:31-35 | the columns are renamed in place, one at a time; the rows are untouched |
| AdminMaster.RenameBack | src/07_admin_master_dataset.py:31-35 | renaming with the inverse mapping restores the columns |
| AdminMaster.RenameKeepsDistinct | src/07_admin_master_dataset.py:31-35 | an injective rename that does not collide keeps the column names distinct |
| AdminMaster.RenameIgnoresAbsent | src/07_admin_master_dataset.py:33 | an entry for a column that is not present changes nothing |
| AdminMaster.AdminColumns | src/07_admin_master_dataset.py:31-35 | friction_level becomes Lifecycle_Friction and forecast_level becomes Next_Month_Demand; 'dependency_level' is absent, so that rename does nothing |

## Left out

- Network, routing, the React state hooks and all rendering beyond the
  values shown are out of scope. So are the GeoJSON fetch and the Leaflet
  layers, `navigator.geolocation` and the Nominatim calls.
- File, CSV and JSON I/O and `print` are out of scope. A dataframe is a
  sequence of records and a directory is a map from file name to text.
  `AndRewriter.ReplaceAndInData` returns the printed lines and the exit
  status. A file's text is what `read_text(encoding='utf-8')` returns
  (scripts/replace_and_with_amp.py:12). Two effects of that read are not
  modelled:
  - Universal newlines: a CRLF file is read with LF endings, so a
    rewritten file is saved with LF endings.
  - A file that is not valid UTF-8 raises an error mid-run, after the
    earlier files have already been rewritten.
- Floating point is not modelled:
  - The map's average is compared by cross-multiplying.
  - The rolling mean is kept as an exact (sum, count) pair.
  - The haversine distance of `get_centers` is an abstract natural-number
    distance given as a parameter. Rounding to two decimals is not modelled.
  - The LFI and UDR scores are carried as opaque values, not computed.
  - The summary KPIs of `/summary` are not modelled.
- Dates are integers. Only their order matters.
- Text is ASCII:
  - `lower()`/`toLowerCase()` change only A-Z.
  - Whitespace is space, tab, newline, carriage return, vertical tab and
    form feed, for JavaScript and Python alike. Python's `split()` and
    `strip()` also treat the separators `\x1c`-`\x1f` as whitespace. JavaScript's
    `\s` and `trim()` also treat the no-break space, the byte-order mark and
    the Unicode space separators as whitespace. A value holding one of these
    characters is keyed differently by the model.
  - Digits are 0-9 and `\w` is [A-Za-z0-9_].
  - Python's Unicode case folding and Unicode word boundaries are not
    modelled.
- The contents of the mock centre list and the document checklists are kept
  only in their shape: a few entries, each with non-empty documents.
- The pandas `merge` of `06_forecast_demand.py` produces a joined row for
  each biometric match, in demographic order and, within one demographic
  row, in biometric order. The model keeps that order. It matters: two
  biometric rows that match one demographic row give two update rows tied on
  state, district and date. The multi-column sort that follows is stable, so
  the join order decides which totals enter which rolling window. The model
  sorts stably as well.
- AdminMaster.LatestMeans: `sort_values('date')` is an unstable quicksort.
  The model sorts stably, so among rows with the same latest date it picks
  one particular row. The contract only promises a row of the maximum date,
  which is all the source guarantees.
- DemandForecast.JoinBioUnmatched: it states the unmatched case in one
  direction. The matched case is stated separately by
  `DemandForecast.JoinBioAt` and `DemandForecast.JoinBioMatched`.
- DistrictTable.NormalizeDistrictIdempotent: for a district found in the
  alias table, it assumes that the title-cased table value canonicalises
  back to a key that maps to the same value (the `LeadsBack` hypothesis).
  This is not proved for each of the table's entries. For unlisted districts
  the property is proved outright.
- DistrictTable.NormalizeStateIdempotent: it is proved for the title-cased
  fallback names only, not for the names that come from the alias table.
- DistrictTable.NormalizeState: an all-whitespace state gives the empty
  name rather than null. The de-duplication drops such a row anyway, as the
  source's falsy test does.
- JavaScript object lookups also find keys inherited from
  `Object.prototype`. The model's tables are plain maps, so it does not
  capture these cases:
  - On the friction page and in the charts the key is lower-cased first, so
    `CANONICAL_STATES[key] || null` gives the `Object` function for
    "constructor" and the prototype object itself for "__proto__". The
    camel-case `toString` can never be such a key.
  - In the district table, `STATE_MAP[key]` is truthy for "constructor"
    (frontend/src/components/DistrictTable.jsx:54), so the `Object`
    function itself becomes the row's state.
  - `normalizeDistrict("constructor")` throws, because `DISTRICT_MAP[key]`
    is then a function without `.replace`.
  - `DEMAND_PRIORITY[existing.Next_Month_Demand] || 0`
    (frontend/src/components/DistrictTable.jsx:155-156) ranks a stored row
    labelled "constructor" with a function. `priority > fn` is always
    false, so no later row replaces it. `DistrictTable.Priority` ranks that
    label 0, so the model lets a later "High Demand" row replace it.
  - `stateStats[state]` on the map finds inherited members for such a
    state name.
- The de-duplication is stated for any pair of state and district
  normalisers (`DistrictTable.Namers`). `DistrictTable.Component` is the
  pair the component uses. The other components' rendering code, the
  carousel, the login pages and the feature tabs are not part of this model.
- `src/01`–`05` (loading, preprocessing, the LFI and UDR indices and
  validation) are not part of this model.

## Findings

| source | as written | input that shows it | evidently intended | confidence | as-written member | corrected member |
|---|---|---|---|---|---|---|
| frontend/src/components/DistrictTable.jsx:145-157 | the newcomer's demand label is trimmed, but the stored row's label is looked up untrimmed, so a stored " High Demand" ranks 0 | two rows with the same state and district: " High Demand", then "Low Demand" | the stored label is trimmed too, so the High row is kept | not executed; high | DistrictTable.TrimFinding | DistrictTable.DedupKeepsHighest |
| frontend/src/components/FrictionAnalysis.jsx:7-65 | every Dadra and Daman spelling maps to "Dadra & Nagar Haveli and Daman & Diu", but that name's own lower-cased key is not in the table, so rows the back end already names this way are dropped from the drop-down and from every state's view | a record whose state is "Dadra & Nagar Haveli and Daman & Diu", which `backend/api.py:149-156` produces | the merged name is recognised as itself | not executed; medium | FrictionAnalysis.DadraNameDropped | FrictionAnalysis.DadraNameKept |
