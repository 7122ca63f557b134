/**
 * The manual grid of the dataset manager: a list of column names and a list
 * of rows of cell texts, edited by whole-grid updates (`map`, `filter` and
 * spread), and the text a saved grid becomes.
 */
module Grid {
  import opened Text

  type Row = seq<string>

  /** Every row has one cell per column. */
  predicate Rectangular(grid: seq<Row>, width: nat) {
    forall i :: 0 <= i < |grid| ==> |grid[i]| == width
  }

  /** `s.filter((_, k) => k !== i)`: the entries at every other position; the
      whole of `s` when `i` is not a position of it. */
  function RemoveAt<T>(s: seq<T>, i: int): (r: seq<T>)
    ensures 0 <= i < |s| ==> |r| == |s| - 1
    ensures 0 <= i < |s| ==> forall k :: 0 <= k < |r| ==> r[k] == (if k < i then s[k] else s[k + 1])
    ensures !(0 <= i < |s|) ==> r == s
  {
    if 0 <= i < |s| then s[..i] + s[i + 1..] else s
  }

  /** `grid.map(row => [...row, cell])`. */
  function AppendCell(grid: seq<Row>, cell: string): (r: seq<Row>)
    ensures |r| == |grid|
    ensures forall i :: 0 <= i < |r| ==> |r[i]| == |grid[i]| + 1 && r[i][..|grid[i]|] == grid[i] && r[i][|grid[i]|] == cell
    ensures forall w: nat :: Rectangular(grid, w) ==> Rectangular(r, w + 1)
  {
    if grid == [] then [] else [grid[0] + [cell]] + AppendCell(grid[1..], cell)
  }

  /** `grid.map(row => row.filter((_, k) => k !== i))`. */
  function RemoveCell(grid: seq<Row>, i: int): (r: seq<Row>)
    ensures |r| == |grid|
    ensures forall k :: 0 <= k < |r| ==> r[k] == RemoveAt(grid[k], i)
    ensures forall w: nat :: Rectangular(grid, w) && 0 <= i < w ==> Rectangular(r, w - 1)
    ensures forall w: nat :: Rectangular(grid, w) && !(0 <= i < w) ==> r == grid
  {
    if grid == [] then [] else [RemoveAt(grid[0], i)] + RemoveCell(grid[1..], i)
  }

  /** `Array(n).fill('0')`. */
  function Zeros(n: nat): (r: Row)
    ensures |r| == n
    ensures forall k :: 0 <= k < n ==> r[k] == "0"
  {
    if n == 0 then [] else Zeros(n - 1) + ["0"]
  }

  /** The copy-and-assign of `updateCell` for a cell that exists. */
  function SetCell(grid: seq<Row>, row: nat, col: nat, value: string): (r: seq<Row>)
    requires row < |grid| && col < |grid[row]|
    ensures |r| == |grid|
    ensures forall i :: 0 <= i < |r| ==> |r[i]| == |grid[i]|
    ensures forall i, j :: 0 <= i < |r| && 0 <= j < |r[i]| ==>
      r[i][j] == (if i == row && j == col then value else grid[i][j])
  {
    grid[row := grid[row][col := value]]
  }

  /** `row.join(' ')` for every row. */
  function RowTexts(grid: seq<Row>): (r: seq<string>)
    ensures |r| == |grid|
    ensures forall i :: 0 <= i < |r| ==> r[i] == Join(" ", grid[i])
  {
    if grid == [] then [] else [Join(" ", grid[0])] + RowTexts(grid[1..])
  }

  /** What `saveManualVersion` sends as content: cells separated by spaces,
      rows by line breaks.  When no cell holds a line break, the lines of the
      text are exactly the row texts. */
  function Serialize(grid: seq<Row>): (r: string)
    ensures |grid| >= 1 && (forall i, j :: 0 <= i < |grid| && 0 <= j < |grid[i]| ==> '\n' !in grid[i][j])
            ==> Split(r, '\n') == RowTexts(grid)
  {
    var texts := RowTexts(grid);
    assert |grid| >= 1 && (forall i, j :: 0 <= i < |grid| && 0 <= j < |grid[i]| ==> '\n' !in grid[i][j])
           ==> Split(Join("\n", texts), '\n') == texts by {
      if |grid| >= 1 && (forall i, j :: 0 <= i < |grid| && 0 <= j < |grid[i]| ==> '\n' !in grid[i][j]) {
        forall i | 0 <= i < |texts|
          ensures '\n' !in texts[i]
        {
          JoinAvoids(" ", grid[i], '\n');
        }
        SplitJoin(texts, '\n');
      }
    }
    Join("\n", texts)
  }

  /** Reading grid text back: lines split on '\n', each split on ' '. */
  function SplitLines(lines: seq<string>): (r: seq<Row>)
    ensures |r| == |lines|
    ensures forall i :: 0 <= i < |r| ==> r[i] == Split(lines[i], ' ')
  {
    if lines == [] then [] else [Split(lines[0], ' ')] + SplitLines(lines[1..])
  }

  function Parse(content: string): seq<Row> {
    SplitLines(Split(content, '\n'))
  }

  /** No cell can be confused with a separator. */
  predicate PlainCells(grid: seq<Row>) {
    forall i, j :: 0 <= i < |grid| && 0 <= j < |grid[i]| ==> ' ' !in grid[i][j] && '\n' !in grid[i][j]
  }

  /** A saved grid of at least one row, each of at least one cell, none
      holding a space or a line break, reads back as the same grid. */
  lemma ParseSerialize(grid: seq<Row>)
    requires |grid| >= 1
    requires forall i :: 0 <= i < |grid| ==> |grid[i]| >= 1
    requires PlainCells(grid)
    ensures Parse(Serialize(grid)) == grid
  {
    var texts := RowTexts(grid);
    assert Split(Serialize(grid), '\n') == texts;
    forall i | 0 <= i < |grid|
      ensures Split(texts[i], ' ') == grid[i]
    {
      SplitJoin(grid[i], ' ');
    }
  }

  /** Adding a column keeps the grid rectangular over the longer column list,
      and removing one over the shorter; adding a row keeps it too. */
  lemma GridEditsKeepShape(columns: seq<string>, grid: seq<Row>, name: string, i: int)
    requires Rectangular(grid, |columns|)
    ensures Rectangular(AppendCell(grid, "0"), |columns + [name]|)
    ensures Rectangular(RemoveCell(grid, i), |RemoveAt(columns, i)|)
    ensures Rectangular(grid + [Zeros(|columns|)], |columns|)
  {
  }
}
