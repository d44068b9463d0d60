/** The one-off clean-up that writes "&" for every standalone "and" in the
    CSV files of the data directory (`scripts/replace_and_with_amp.py`). The
    directory is a value: a map from file name to file text, with `None`
    standing for a directory that does not exist. A file's text is what a
    UTF-8 read with universal newlines returns, so line endings and
    undecodable bytes are outside the model. */
module AndRewriter {
  import opened Wrappers
  import opened Text
  import opened Seqs

  type Files = map<string, string>

  /** `p.glob('*.csv')`: every name ending in ".csv", hidden ones included. */
  predicate IsCsv(name: string) { EndsWith(name, ".csv") }

  /** A file the loop rewrites: a CSV file whose text holds a standalone "and". */
  predicate Changes(files: Files, name: string) {
    name in files && IsCsv(name) && ReplaceAnd(files[name]) != files[name]
  }

  /** The directory after the run: every CSV file with its "and"s replaced,
      every other file as it was. */
  function Rewritten(files: Files): (r: Files)
    ensures r.Keys == files.Keys
  {
    map name | name in files :: if IsCsv(name) then ReplaceAnd(files[name]) else files[name]
  }

  /** What the script prints and its exit status. */
  datatype Outcome = Outcome(lines: seq<string>, status: int)

  /** `str(f)` of a file in `data`. */
  function PathOf(name: string): string { "data/" + name }

  function Listed(changed: seq<string>): (r: seq<string>)
    ensures |r| == |changed|
    ensures forall i :: 0 <= i < |r| ==> r[i] == "- " + PathOf(changed[i])
  {
    seq(|changed|, i requires 0 <= i < |changed| => "- " + PathOf(changed[i]))
  }

  /** The closing report: the modified paths in order, or that nothing changed. */
  function Summary(changed: seq<string>): Outcome {
    if changed == [] then Outcome(["No changes made"], 0)
    else Outcome(["Modified files:"] + Listed(changed), 0)
  }

  /** The CSV files of the directory, each once, in no particular order. */
  method ListCsv(files: Files) returns (names: seq<string>)
    ensures NoDups(names)
    ensures forall n :: n in names <==> n in files && IsCsv(n)
  {
    var left := set n | n in files && IsCsv(n);
    names := [];
    while left != {}
      invariant NoDups(names)
      invariant forall n :: n in names ==> n !in left
      invariant forall n :: n in files && IsCsv(n) <==> n in names || n in left
      decreases |left|
    {
      var n :| n in left;
      names := names + [n];
      left := left - {n};
    }
  }

  /** The directory once the files in `done` have been processed. */
  function RewrittenSoFar(files: Files, done: seq<string>): Files {
    map name | name in files :: if name in done && IsCsv(name) then ReplaceAnd(files[name]) else files[name]
  }

  /** Processing one more CSV file. */
  lemma RewriteStep(files: Files, done: seq<string>, f: string)
    requires f in files && IsCsv(f)
    ensures RewrittenSoFar(files, done + [f]) ==
            RewrittenSoFar(files, done)[f := ReplaceAnd(files[f])]
  {}

  lemma RewriteDone(files: Files, names: seq<string>)
    requires forall n :: n in names <==> n in files && IsCsv(n)
    ensures RewrittenSoFar(files, names) == Rewritten(files)
  {}

  /** Appending a name beyond every listed one keeps a list strictly ascending. */
  lemma AppendAbove(changed: seq<string>, names: seq<string>, i: nat)
    requires StrictlySorted(names) && i < |names|
    requires StrictlySorted(changed)
    requires forall c :: c in changed ==> c in names[..i]
    ensures StrictlySorted(changed + [names[i]])
  {
    forall c | c in changed ensures StrLe(c, names[i]) && c != names[i] {
      var j :| 0 <= j < i && names[j] == c;
    }
  }

  lemma FreshInSorted(names: seq<string>, i: nat)
    requires StrictlySorted(names) && i < |names|
    ensures names[i] !in names[..i]
  {}

  /** The rewriting loop over the CSV files in ascending name order. */
  method RewriteFiles(files: Files, names: seq<string>) returns (after: Files, changed: seq<string>)
    requires StrictlySorted(names)
    requires forall n :: n in names <==> n in files && IsCsv(n)
    ensures after == Rewritten(files)
    ensures StrictlySorted(changed)
    ensures forall n :: n in changed <==> Changes(files, n)
  {
    after := files;
    changed := [];
    assert RewrittenSoFar(files, []) == files;
    for i := 0 to |names|
      invariant after == RewrittenSoFar(files, names[..i])
      invariant StrictlySorted(changed)
      invariant forall n :: n in changed <==> n in names[..i] && Changes(files, n)
    {
      var f := names[i];
      assert f in names;
      TakeSnoc(names, i);
      RewriteStep(files, names[..i], f);
      FreshInSorted(names, i);
      var text := after[f];
      var replaced := ReplaceAnd(text);
      if replaced != text {
        AppendAbove(changed, names, i);
        changed := changed + [f];
      }
      after := after[f := replaced];
    }
    assert names[..|names|] == names;
    RewriteDone(files, names);
  }

  /** The whole script. */
  method ReplaceAndInData(dir: Option<Files>) returns (after: Option<Files>, changed: seq<string>, out: Outcome)
    ensures dir.None? ==> after.None? && changed == [] && out == Outcome(["data directory not found"], 1)
    ensures dir.Some? ==> after == Some(Rewritten(dir.value)) && out == Summary(changed)
    ensures dir.Some? ==> StrictlySorted(changed) && forall n :: n in changed <==> Changes(dir.value, n)
  {
    if dir.None? {
      return None, [], Outcome(["data directory not found"], 1);
    }
    var files := dir.value;
    var found := ListCsv(files);
    var names := SortStrings(found);
    SortStringsStrict(found);
    var newFiles;
    newFiles, changed := RewriteFiles(files, names);
    after := Some(newFiles);
    out := Summary(changed);
  }

  /** A second run finds nothing left to replace and leaves the directory
      as the first run left it. */
  lemma SecondRunChangesNothing(files: Files)
    ensures forall n :: !Changes(Rewritten(files), n)
    ensures Rewritten(Rewritten(files)) == Rewritten(files)
  {
    var once := Rewritten(files);
    forall n | n in once && IsCsv(n) ensures ReplaceAnd(once[n]) == once[n] {
      ReplaceAndIdempotent(files[n]);
    }
  }

  /** A file is rewritten exactly when its text holds a standalone "and"
      (any letter case, bounded by non-word characters), and afterwards it
      holds none. */
  lemma ChangesMeans(files: Files, n: string)
    requires n in files && IsCsv(n)
    ensures Changes(files, n) <==> exists i :: 0 <= i < |files[n]| && StandaloneAndAt(files[n], i)
    ensures HasNoStandaloneAnd(Rewritten(files)[n])
  {
    ReplaceAndChangesIff(files[n], false);
    HasNoStandaloneAndMeans(files[n]);
    ReplaceAndIsClean(files[n], false);
  }

  /** Only CSV files are touched. */
  lemma OtherFilesKept(files: Files, n: string)
    requires n in files && !IsCsv(n)
    ensures Rewritten(files)[n] == files[n] && !Changes(files, n)
  {}

  /** The summary lists every modified path once, in order, under a
      heading, and says so when there is none. */
  lemma SummaryMeans(changed: seq<string>)
    ensures var lines := Summary(changed).lines;
            && (changed == [] <==> lines == ["No changes made"])
            && (changed != [] ==> lines[0] == "Modified files:" && lines[1..] == Listed(changed))
  {
    if changed != [] {
      assert Summary(changed).lines[0] == "Modified files:";
    }
  }
}
