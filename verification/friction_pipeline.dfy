/** The friction analysis page reads the back end's `/friction-age-analysis`
    reply: what the page makes of the records the endpoint produces. */
module FrictionPipeline {
  import opened Wrappers
  import opened Text
  import opened Records
  import StateLookup
  import BackendFriction
  import FrictionAnalysis

  /** A key is made of spaces and of the characters of the lowered value, so
      the key of an all-digit value starts with a digit. */
  lemma DigitKey(raw: string)
    ensures AllDigits(raw) && BackendFriction.StateKey(raw) != "" ==> IsDigit(BackendFriction.StateKey(raw)[0])
  {
    var k := BackendFriction.StateKey(raw);
    if AllDigits(raw) && k != "" {
      SplitJoinIsSpaced(Lower(raw));
      var l := Lower(raw);
      var j :| 0 <= j < |l| && l[j] == k[0];
    }
  }

  /** The spelled-out spelling of the merged territory is kept and cleaned
      to the table's name for it. */
  lemma SpelledOutDadraKept(row: BackendFriction.MeltedRow)
    requires row.state.Some?
    requires BackendFriction.StateKey(row.state.value) == "dadra and nagar haveli and daman and diu"
    ensures BackendFriction.Kept(row) && BackendFriction.Clean(row).state == StateLookup.DadraName
  {
    BackendFriction.DadraSpelling(row.state.value);
    DigitKey(row.state.value);
  }

  /** A melted row spelling the merged territory out in words ("Dadra and
      Nagar Haveli and Daman and Diu", in any case and spacing) survives
      cleaning under the table's name for the territory, so the reply
      carries a record under that name. */
  lemma SpelledOutDadraReplied(melted: seq<BackendFriction.MeltedRow>, i: nat)
    requires i < |melted| && melted[i].state.Some?
    requires BackendFriction.StateKey(melted[i].state.value) == "dadra and nagar haveli and daman and diu"
    ensures exists r :: r in BackendFriction.Aggregate(BackendFriction.Cleaned(melted)) &&
                        r.state == Some(StateLookup.DadraName)
  {
    SpelledOutDadraKept(melted[i]);
    BackendFriction.KeptRowReplied(melted, i);
  }

  /** The page as written recognises no record under the merged territory's
      name, so such a record is missing from the drop-down and from every
      state's view; the corrected page shows it under that name. */
  lemma DadraRecordOnPage(r: FrictionRow)
    requires r.state == Some(StateLookup.DadraName)
    ensures FrictionAnalysis.RowName(r).None?
    ensures FrictionAnalysis.RowNameCorrected(r) == Some(StateLookup.DadraName)
  {
    FrictionAnalysis.DadraNameDropped();
    FrictionAnalysis.DadraNameKept();
  }

  /** The badge colour follows the update volume: red above 50000, yellow
      above 10000, green otherwise. */
  lemma BadgeFollowsVolume(n: int)
    ensures FrictionAnalysis.BadgeColor(BackendFriction.ClassifyFriction(n)) ==
            if n > 50000 then "red" else if n > 10000 then "yellow" else "green"
  {}
}
