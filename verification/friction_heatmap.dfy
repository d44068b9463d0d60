/** The friction-versus-dependency heatmap: a fixed three-by-three grid whose
    cell (f, d) counts the rows labelled exactly f and d. */
module FrictionHeatmap {
  import opened Wrappers
  import opened Seqs
  import opened Records

  const FrictionLevels: seq<string> := ["Low", "Medium", "High"]
  const DependencyLevels: seq<string> := ["Low Dependency", "Medium Dependency", "High Dependency"]

  /** The row is labelled exactly `f` and `d` (`===`, no trimming). */
  function InCell(f: string, d: string): DistrictRow -> bool {
    (row: DistrictRow) => row.friction == Some(f) && row.udrLevel == Some(d)
  }

  /** `getCount(f, d)`. */
  function GetCount(data: seq<DistrictRow>, f: string, d: string): (n: nat)
    ensures n <= |data|
    ensures n == 0 <==> forall row :: row in data ==> row.friction != Some(f) || row.udrLevel != Some(d)
  {
    Count(data, InCell(f, d))
  }

  /** The rendered grid: one row per friction level, one column per
      dependency level, whatever the data. */
  function Grid(data: seq<DistrictRow>): (g: seq<seq<nat>>)
    ensures |g| == |FrictionLevels| == 3
    ensures forall i :: 0 <= i < 3 ==> |g[i]| == |DependencyLevels| == 3
    ensures forall i, j :: 0 <= i < 3 && 0 <= j < 3 ==> g[i][j] <= |data|
  {
    seq(|FrictionLevels|, i requires 0 <= i < |FrictionLevels| =>
      seq(|DependencyLevels|, j requires 0 <= j < |DependencyLevels| =>
        GetCount(data, FrictionLevels[i], DependencyLevels[j])))
  }

  // ---------------------------------------------------------------- the grid adds up

  /** Where a label stands in its list, or -1 when it is not there. */
  function Position(levels: seq<string>, v: Option<string>): (i: int)
    ensures -1 <= i < |levels|
    ensures i >= 0 ==> v == Some(levels[i])
    ensures i == -1 <==> forall j :: 0 <= j < |levels| ==> v != Some(levels[j])
  {
    if levels == [] then -1
    else if v == Some(levels[|levels| - 1]) then |levels| - 1
    else Position(levels[..|levels| - 1], v)
  }

  lemma LevelsDistinct()
    ensures NoDups(FrictionLevels) && NoDups(DependencyLevels)
  {}

  /** The cell a row falls in, numbered row by row, or -1 for none. */
  function CellIndex(row: DistrictRow): int {
    var f := Position(FrictionLevels, row.friction);
    var d := Position(DependencyLevels, row.udrLevel);
    if f >= 0 && d >= 0 then 3 * f + d else -1
  }

  function CellIs(k: int): DistrictRow -> bool {
    (row: DistrictRow) => CellIndex(row) == k
  }

  function CellBelow(k: int): DistrictRow -> bool {
    (row: DistrictRow) => 0 <= CellIndex(row) < k
  }

  /** Both labels are in their vocabularies. */
  predicate InVocabulary(row: DistrictRow) {
    exists i, j :: 0 <= i < 3 && 0 <= j < 3 && InCell(FrictionLevels[i], DependencyLevels[j])(row)
  }

  /** A row is in cell (i, j) exactly when its number is 3i + j; a row has a
      number exactly when both its labels are in the vocabularies. */
  lemma CellIndexMeans(row: DistrictRow)
    ensures forall i, j :: 0 <= i < 3 && 0 <= j < 3 ==>
              (InCell(FrictionLevels[i], DependencyLevels[j])(row) <==> CellIndex(row) == 3 * i + j)
    ensures CellIndex(row) >= 0 <==> InVocabulary(row)
    ensures CellIndex(row) < 9
  {
    LevelsDistinct();
    var f := Position(FrictionLevels, row.friction);
    var d := Position(DependencyLevels, row.udrLevel);
    if f >= 0 && d >= 0 {
      assert InCell(FrictionLevels[f], DependencyLevels[d])(row);
    }
  }

  /** Each row lands in at most one cell. */
  lemma AtMostOneCell(row: DistrictRow, i: int, j: int, i': int, j': int)
    requires 0 <= i < 3 && 0 <= j < 3 && 0 <= i' < 3 && 0 <= j' < 3
    requires InCell(FrictionLevels[i], DependencyLevels[j])(row)
    requires InCell(FrictionLevels[i'], DependencyLevels[j'])(row)
    ensures i == i' && j == j'
  {
    CellIndexMeans(row);
  }

  /** A label outside the vocabulary (a trailing space, another case) puts
      the row in no cell. */
  lemma OffVocabularyInNoCell(row: DistrictRow)
    requires !InVocabulary(row)
    ensures forall i, j :: 0 <= i < 3 && 0 <= j < 3 ==> !InCell(FrictionLevels[i], DependencyLevels[j])(row)
  {
    CellIndexMeans(row);
  }

  /** For instance a friction label with a trailing space. */
  lemma TrailingSpaceInNoCell(row: DistrictRow)
    requires row.friction == Some("High ")
    ensures forall i, j :: 0 <= i < 3 && 0 <= j < 3 ==> !InCell(FrictionLevels[i], DependencyLevels[j])(row)
  {
    assert FrictionLevels == ["Low", "Medium", "High"];
  }

  function SumRow(xs: seq<nat>): nat {
    if xs == [] then 0 else xs[0] + SumRow(xs[1..])
  }

  /** The sum of all cells. */
  function GridTotal(g: seq<seq<nat>>): nat {
    if g == [] then 0 else SumRow(g[0]) + GridTotal(g[1..])
  }

  lemma SumOfThree(xs: seq<nat>)
    requires |xs| == 3
    ensures SumRow(xs) == xs[0] + xs[1] + xs[2]
  {
    assert SumRow(xs[1..][1..]) == xs[2] + SumRow(xs[1..][1..][1..]);
    assert SumRow(xs[1..]) == xs[1] + SumRow(xs[1..][1..]);
  }

  lemma TotalOfThreeRows(g: seq<seq<nat>>)
    requires |g| == 3
    ensures GridTotal(g) == SumRow(g[0]) + SumRow(g[1]) + SumRow(g[2])
  {
    assert GridTotal(g[1..][1..]) == SumRow(g[2]) + GridTotal(g[1..][1..][1..]);
    assert GridTotal(g[1..]) == SumRow(g[1]) + GridTotal(g[1..][1..]);
  }

  lemma CellCount(data: seq<DistrictRow>, i: int, j: int, k: int)
    requires 0 <= i < 3 && 0 <= j < 3 && k == 3 * i + j
    ensures Grid(data)[i][j] == Count(data, CellIs(k))
  {
    forall row ensures InCell(FrictionLevels[i], DependencyLevels[j])(row) == CellIs(k)(row) {
      CellIndexMeans(row);
    }
    CountSamePredicate(data, InCell(FrictionLevels[i], DependencyLevels[j]), CellIs(k));
  }

  /** The cells numbered below `k` together count the rows numbered below `k`. */
  lemma {:induction false} CellsBelow(data: seq<DistrictRow>, k: nat)
    requires k <= 9
    ensures Count(data, CellBelow(k)) == CountCells(data, k)
  {
    if k > 0 {
      CellsBelow(data, k - 1);
      CountOr(data, CellBelow(k - 1), CellIs(k - 1), CellBelow(k));
    } else {
      CountAll(data, (row: DistrictRow) => false);
      CountSamePredicate(data, CellBelow(0), (row: DistrictRow) => false);
    }
  }

  /** The counts of the cells numbered below `k`, added up. */
  function CountCells(data: seq<DistrictRow>, k: nat): nat {
    if k == 0 then 0 else CountCells(data, k - 1) + Count(data, CellIs(k - 1))
  }

  lemma CountNineCells(data: seq<DistrictRow>)
    ensures CountCells(data, 9) ==
            Count(data, CellIs(0)) + Count(data, CellIs(1)) + Count(data, CellIs(2)) +
            Count(data, CellIs(3)) + Count(data, CellIs(4)) + Count(data, CellIs(5)) +
            Count(data, CellIs(6)) + Count(data, CellIs(7)) + Count(data, CellIs(8))
  {
    assert CountCells(data, 1) == CountCells(data, 0) + Count(data, CellIs(0));
    assert CountCells(data, 2) == CountCells(data, 1) + Count(data, CellIs(1));
    assert CountCells(data, 3) == CountCells(data, 2) + Count(data, CellIs(2));
    assert CountCells(data, 4) == CountCells(data, 3) + Count(data, CellIs(3));
    assert CountCells(data, 5) == CountCells(data, 4) + Count(data, CellIs(4));
    assert CountCells(data, 6) == CountCells(data, 5) + Count(data, CellIs(5));
    assert CountCells(data, 7) == CountCells(data, 6) + Count(data, CellIs(6));
    assert CountCells(data, 8) == CountCells(data, 7) + Count(data, CellIs(7));
    assert CountCells(data, 9) == CountCells(data, 8) + Count(data, CellIs(8));
  }

  /** Row `i` of the grid adds up the cells numbered 3i, 3i + 1 and 3i + 2. */
  lemma RowSum(data: seq<DistrictRow>, i: int)
    requires 0 <= i < 3
    ensures SumRow(Grid(data)[i]) == Count(data, CellIs(3 * i)) + Count(data, CellIs(3 * i + 1)) + Count(data, CellIs(3 * i + 2))
  {
    SumOfThree(Grid(data)[i]);
    CellCount(data, i, 0, 3 * i);
    CellCount(data, i, 1, 3 * i + 1);
    CellCount(data, i, 2, 3 * i + 2);
  }

  /** The grid total is the sum of the nine numbered cells. */
  lemma GridIsCells(data: seq<DistrictRow>)
    ensures GridTotal(Grid(data)) == CountCells(data, 9)
  {
    TotalOfThreeRows(Grid(data));
    RowSum(data, 0);
    RowSum(data, 1);
    RowSum(data, 2);
    CountNineCells(data);
  }

  /** The numbered cells together count the rows in the vocabularies. */
  lemma CellsAreVocabulary(data: seq<DistrictRow>)
    ensures CountCells(data, 9) == Count(data, InVocabulary)
  {
    CellsBelow(data, 9);
    forall row ensures CellBelow(9)(row) == InVocabulary(row) {
      CellIndexMeans(row);
    }
    CountSamePredicate(data, CellBelow(9), InVocabulary);
  }

  /** The cells add up to the rows whose labels are both in the
      vocabularies: at most the number of rows, and exactly that number when
      every row's labels are. */
  lemma GridAddsUp(data: seq<DistrictRow>)
    ensures GridTotal(Grid(data)) == Count(data, InVocabulary)
    ensures GridTotal(Grid(data)) <= |data|
    ensures GridTotal(Grid(data)) == |data| <==> forall row :: row in data ==> InVocabulary(row)
  {
    GridIsCells(data);
    CellsAreVocabulary(data);
    CountAll(data, InVocabulary);
  }
}
