/** The closed-vocabulary state lookup shared by the friction analysis page
    and the demand charts: the raw value is lower-cased and trimmed (inner
    whitespace is left alone), looked up in the component's own table, and a
    miss gives null. Both components then list the recognised states in a
    drop-down and filter their rows by the selected one. */
module StateLookup {
  import opened Wrappers
  import opened Text
  import opened Seqs

  /** `raw.toLowerCase().trim()`. */
  function LookupKey(raw: string): string {
    Trim(Lower(raw))
  }

  /** `normalizeState`: `if (!raw) return null; return TABLE[key] || null`. */
  function Normalize(table: map<string, string>, raw: Option<string>): Option<string> {
    if raw.None? || raw.value == "" then None
    else
      var key := LookupKey(raw.value);
      if key in table && table[key] != "" then Some(table[key]) else None
  }

  /** Every key is non-empty and names a non-empty state. */
  predicate Proper(table: map<string, string>) {
    forall k :: k in table ==> k != "" && table[k] != ""
  }

  /** The lookup never invents a name: it gives null, or the table's name for
      the lowered, trimmed input; with a proper table it gives a name exactly
      when that key is listed. */
  lemma NormalizeMeans(table: map<string, string>, raw: Option<string>)
    ensures var r := Normalize(table, raw);
            && (r.Some? ==> r.value in table.Values && r.value == table[LookupKey(raw.value)])
            && (Proper(table) ==> (r.Some? <==> raw.Some? && LookupKey(raw.value) in table))
  {
    if raw.Some? && raw.value == "" {
      assert LookupKey(raw.value) == "";
    }
  }

  /** Upper/lower case and surrounding whitespace do not matter. */
  lemma NormalizeIgnoresCaseAndPadding(table: map<string, string>, a: string, b: string)
    requires a != "" && b != "" && Trim(Lower(a)) == Trim(Lower(b))
    ensures Normalize(table, Some(a)) == Normalize(table, Some(b))
  {}

  /** A value that lower-cases to a key with no whitespace at either end is
      looked up under that key. */
  lemma KeyOfLowered(raw: string, k: string)
    requires Lower(raw) == k && k != "" && !IsSpace(k[0]) && !IsSpace(k[|k| - 1])
    ensures raw != "" && LookupKey(raw) == k
  {
    TrimOfTrimmed(k);
  }

  /** The lookup under a known key. */
  lemma NormalizeAt(table: map<string, string>, raw: string, k: string)
    requires raw != "" && LookupKey(raw) == k
    ensures Normalize(table, Some(raw)) == if k in table && table[k] != "" then Some(table[k]) else None
  {}

  // Each component's table is written as a union of small groups of
  // entries, in source order, so that a fact about one key is proved one
  // group at a time and carried through the unions by the two lemmas below.

  /** A union of two proper tables is proper. */
  lemma UnionProper(a: map<string, string>, b: map<string, string>)
    requires Proper(a) && Proper(b)
    ensures Proper(a + b)
  {}

  /** A lookup in `a + b`: the later group wins; a key the later group lacks
      is looked up in the earlier one. */
  lemma UnionLookup(a: map<string, string>, b: map<string, string>, k: string)
    ensures k in b ==> k in a + b && (a + b)[k] == b[k]
    ensures k !in b ==> (k in a + b <==> k in a) && (k in a ==> (a + b)[k] == a[k])
  {}

  /** Adding or replacing one entry changes the lookup of that key only. */
  lemma NormalizeUpdate(table: map<string, string>, k: string, v: string, raw: string)
    ensures Normalize(table[k := v], Some(raw)) ==
            if raw != "" && LookupKey(raw) == k then (if v != "" then Some(v) else None)
            else Normalize(table, Some(raw))
  {}

  /** The name both page tables give the merged union territory, and that
      name lower-cased, which is what the lookup searches for it. */
  const DadraName: string := "Dadra & Nagar Haveli and Daman & Diu"
  const DadraKey: string := "dadra & nagar haveli and daman & diu"

  lemma LowerDadraName()
    ensures Lower(DadraName) == DadraKey
  {
    DadraNameSplit();
    LowerAppend("Dadra & Nagar Haveli", " and Daman & Diu");
    LowerDadraHalves();
  }

  lemma DadraNameSplit()
    ensures DadraName == "Dadra & Nagar Haveli" + " and Daman & Diu"
    ensures DadraKey == "dadra & nagar haveli" + " and daman & diu"
  {}

  lemma LowerDadraHalves()
    ensures Lower("Dadra & Nagar Haveli") == "dadra & nagar haveli"
    ensures Lower(" and Daman & Diu") == " and daman & diu"
  {}

  // ---------------------------------------------------------------- the drop-down

  // The drop-down and the filter are stated for any way `nameOf` of naming a
  // row; each component passes its own `normalizeState` of the row's state.

  /** The names of the rows that have one, in row order. */
  function Recognised<R, N>(rows: seq<R>, nameOf: R -> Option<N>): seq<N> {
    if rows == [] then []
    else
      var rest := Recognised(rows[..|rows| - 1], nameOf);
      match nameOf(rows[|rows| - 1])
      case Some(n) => rest + [n]
      case None => rest
  }

  lemma {:induction false} RecognisedMeans<R, N>(rows: seq<R>, nameOf: R -> Option<N>)
    ensures forall n :: n in Recognised(rows, nameOf) <==>
              exists i :: 0 <= i < |rows| && nameOf(rows[i]) == Some(n)
  {
    if rows != [] {
      var p := rows[..|rows| - 1];
      RecognisedMeans(p, nameOf);
      forall n ensures n in Recognised(rows, nameOf) <==>
                       exists i :: 0 <= i < |rows| && nameOf(rows[i]) == Some(n)
      {
        if n in Recognised(p, nameOf) {
          var i :| 0 <= i < |p| && nameOf(p[i]) == Some(n);
          assert rows[i] == p[i];
        }
        if exists i :: 0 <= i < |rows| && nameOf(rows[i]) == Some(n) {
          var i :| 0 <= i < |rows| && nameOf(rows[i]) == Some(n);
          if i < |p| {
            assert rows[i] == p[i];
          }
        }
      }
    }
  }

  lemma DistinctSnoc<T(!new)>(s: seq<T>, x: T)
    ensures Distinct(s + [x]) == if x in Distinct(s) then Distinct(s) else Distinct(s) + [x]
  {
    assert (s + [x])[..|s|] == s;
  }

  lemma RecognisedSnoc<R, N>(rows: seq<R>, r: R, nameOf: R -> Option<N>)
    ensures Recognised(rows + [r], nameOf) ==
            Recognised(rows, nameOf) + if nameOf(r).Some? then [nameOf(r).value] else []
  {
    assert (rows + [r])[..|rows|] == rows;
  }

  /** The `forEach` that adds every recognised name to a `Set`; the set keeps
      names in order of first insertion. */
  method CollectStates<R>(rows: seq<R>, nameOf: R -> Option<string>)
    returns (seen: seq<string>)
    ensures seen == Distinct(Recognised(rows, nameOf))
  {
    seen := [];
    var i := 0;
    while i < |rows|
      invariant i <= |rows|
      invariant seen == Distinct(Recognised(rows[..i], nameOf))
    {
      assert rows[..i + 1][..i] == rows[..i];
      var normalized := nameOf(rows[i]);
      if normalized.Some? {
        DistinctSnoc(Recognised(rows[..i], nameOf), normalized.value);
        if normalized.value !in seen {
          seen := seen + [normalized.value];
        }
      }
      i := i + 1;
    }
    assert rows[..i] == rows;
  }

  /** `["All", ...Array.from(set).sort()]`. */
  method StateOptions<R>(rows: seq<R>, nameOf: R -> Option<string>)
    returns (options: seq<string>)
    ensures options == ["All"] + SortStrings(Distinct(Recognised(rows, nameOf)))
  {
    var seen := CollectStates(rows, nameOf);
    options := ["All"] + SortStrings(seen);
  }

  /** The drop-down is "All" followed by every recognised name exactly once,
      in ascending order, and nothing else. */
  lemma StateOptionsMeans<R>(rows: seq<R>, nameOf: R -> Option<string>)
    ensures var options := ["All"] + SortStrings(Distinct(Recognised(rows, nameOf)));
            && options[0] == "All"
            && StrictlySorted(options[1..])
            && forall n :: n in options[1..] <==> exists i :: 0 <= i < |rows| && nameOf(rows[i]) == Some(n)
  {
    var d := Distinct(Recognised(rows, nameOf));
    SortStringsStrict(d);
    RecognisedMeans(rows, nameOf);
    assert (["All"] + SortStrings(d))[1..] == SortStrings(d);
  }

  // ---------------------------------------------------------------- the filter

  function Selected<R>(nameOf: R -> Option<string>, selection: string): R -> bool {
    (row: R) => nameOf(row) == Some(selection)
  }

  /** `state === "All" ? data : data.filter(d => normalizeState(d.state) === state)`. */
  function FilterByState<R(!new)>(rows: seq<R>, nameOf: R -> Option<string>, selection: string): seq<R> {
    if selection == "All" then rows else Filter(rows, Selected(nameOf, selection))
  }

  /** Under a state other than "All", exactly the rows recognised as that
      state remain, in their original order (an order-preserving
      subsequence), so a row whose state is not recognised never appears. */
  lemma FilterByStateMeans<R(!new)>(rows: seq<R>, nameOf: R -> Option<string>, selection: string)
    requires selection != "All"
    ensures var r := FilterByState(rows, nameOf, selection);
            && (forall row :: row in r <==> row in rows && nameOf(row) == Some(selection))
            && |r| == Count(rows, Selected(nameOf, selection))
            && forall b :: 0 <= b <= |rows| ==> Filter(rows[..b], Selected(nameOf, selection)) <= r
  {
    FilterPrefixes(rows, Selected(nameOf, selection));
  }

  /** A row whose state is not recognised is never shown under a state. */
  lemma UnrecognisedNeverSelected<R(!new)>(rows: seq<R>, nameOf: R -> Option<string>, selection: string, row: R)
    requires selection != "All" && nameOf(row).None?
    ensures row !in FilterByState(rows, nameOf, selection)
  {}
}
