/** Day 4: a grid of paper rolls; rolls with fewer than four neighbours can be taken. */
module Day04 {
  import opened Wrappers
  import Text
  import Seqs

  // ---------------------------------------------------------------------------
  // Reading the grid

  datatype GridError = NonGridShape | NonStorageEntry

  /** A parsed storage: one row of cells per line, `true` for a roll. */
  datatype Grid = Grid(storage: seq<seq<bool>>, rows: int, cols: int)

  /** Every row has `cols` cells. */
  predicate Rectangular(g: seq<seq<bool>>, cols: int) {
    cols >= 0 && forall r :: 0 <= r < |g| ==> |g[r]| == cols
  }

  predicate StorageLine(line: string) {
    forall j :: 0 <= j < |line| ==> line[j] == '.' || line[j] == '@'
  }

  /** The cells of one line: `'@'` is a roll, `'.'` is empty, anything else is refused. */
  function ParseRow(line: string): (row: Option<seq<bool>>)
    ensures row.Some? <==> StorageLine(line)
    ensures row.Some? ==> |row.value| == |line| && forall j :: 0 <= j < |line| ==> (row.value[j] <==> line[j] == '@')
  {
    if StorageLine(line) then Some(Rolls(line)) else None
  }

  /** `true` for each `'@'` of `line`. */
  function Rolls(line: string): (cells: seq<bool>)
    ensures |cells| == |line| && forall j :: 0 <= j < |line| ==> (cells[j] <==> line[j] == '@')
  {
    if line == [] then [] else Rolls(line[..|line| - 1]) + [line[|line| - 1] == '@']
  }

  /** The rows of `lines`, each required to be `cols` long; the first line at fault decides the
      error, its shape checked before its cells. */
  function ParseRows(lines: seq<string>, cols: int): Result<seq<seq<bool>>, GridError>
    decreases |lines|
  {
    if lines == [] then Ok([])
    else
      match ParseRows(lines[..|lines| - 1], cols)
      case Err(e) => Err(e)
      case Ok(rows) =>
        var line := lines[|lines| - 1];
        if |line| != cols then Err(NonGridShape)
        else
          match ParseRow(line)
          case None => Err(NonStorageEntry)
          case Some(row) => Ok(rows + [row])
  }

  /** `PaperRollStorage::new` with its width fixed by the first line (see the findings: the code
      as written fixes it by the first non-empty line). */
  function ParseGrid(lines: seq<string>): Result<Grid, GridError> {
    var cols := if lines == [] then 0 else |lines[0]|;
    match ParseRows(lines, cols)
    case Err(e) => Err(e)
    case Ok(rows) => Ok(Grid(rows, |lines|, cols))
  }

  /** The rows parse exactly when every line has `cols` cells of `'.'` and `'@'`; then row `i`
      marks the `'@'` of line `i`. */
  lemma {:induction false} ParseRowsExact(lines: seq<string>, cols: int)
    ensures ParseRows(lines, cols).Ok?
        <==> forall i :: 0 <= i < |lines| ==> |lines[i]| == cols && StorageLine(lines[i])
    ensures ParseRows(lines, cols).Ok? ==>
        var rows := ParseRows(lines, cols).value;
        |rows| == |lines|
        && (forall i :: 0 <= i < |lines| ==> |rows[i]| == |lines[i]|)
        && forall i, j :: 0 <= i < |lines| && 0 <= j < |lines[i]| ==> (rows[i][j] <==> lines[i][j] == '@')
    decreases |lines|
  {
    if lines != [] {
      var n := |lines|;
      var prefix := lines[..n - 1];
      var line := lines[n - 1];
      ParseRowsExact(prefix, cols);
      assert forall i :: 0 <= i < n - 1 ==> prefix[i] == lines[i];
      match ParseRows(prefix, cols)
      case Err(e) =>
        assert !(forall i :: 0 <= i < n - 1 ==> |lines[i]| == cols && StorageLine(lines[i]));
      case Ok(rows) =>
        if |line| == cols && StorageLine(line) {
          var row := ParseRow(line).value;
          assert ParseRows(lines, cols) == Ok(rows + [row]);
          assert forall i :: 0 <= i < n - 1 ==> (rows + [row])[i] == rows[i];
        }
    }
  }

  /** A grid that parses is rectangular: as many rows as lines, each as wide as the first line. */
  lemma ParseGridShape(lines: seq<string>)
    requires ParseGrid(lines).Ok?
    ensures var g := ParseGrid(lines).value;
      g.rows == |g.storage| == |lines| && Rectangular(g.storage, g.cols)
      && g.cols == (if lines == [] then 0 else |lines[0]|)
  {
    ParseRowsExact(lines, if lines == [] then 0 else |lines[0]|);
  }

  /** The lines loop of `PaperRollStorage::new`, over `input.lines()`, as written: the width
      is set by the first non-empty line. */
  method ReadStorage(input: string) returns (result: Result<Grid, GridError>)
    ensures result == ParseGridAsWritten(Text.Lines(input))
  {
    var lines := Text.Lines(input);
    var rows := 0;
    var cols := 0;
    var storage: seq<seq<bool>> := [];
    for index := 0 to |lines|
      invariant ParseRowsAsWritten(lines[..index]) == Ok((storage, cols))
      invariant rows == index
    {
      var line := lines[index];
      AsWrittenNext(lines, index, storage, cols);
      if cols == 0 {
        cols := |line|;
      }
      if cols != |line| {
        AsWrittenErrorSticks(lines, index + 1, NonGridShape);
        return Err(NonGridShape);
      }
      var lineStorage := ReadRow(line);
      if lineStorage.None? {
        AsWrittenErrorSticks(lines, index + 1, NonStorageEntry);
        return Err(NonStorageEntry);
      }
      storage := storage + [lineStorage.value];
      rows := index + 1;
    }
    assert lines[..|lines|] == lines;
    return Ok(Grid(storage, rows, cols));
  }

  /** The cells loop of `PaperRollStorage::new` over one line. */
  method ReadRow(line: string) returns (row: Option<seq<bool>>)
    ensures row == ParseRow(line)
  {
    var cells: seq<bool> := [];
    for j := 0 to |line|
      invariant cells == Rolls(line[..j])
      invariant forall k :: 0 <= k < j ==> line[k] == '.' || line[k] == '@'
    {
      assert line[..j + 1][..j] == line[..j];
      var entry := line[j];
      if entry == '.' {
        cells := cells + [false];
      } else if entry == '@' {
        cells := cells + [true];
      } else {
        return None;
      }
    }
    assert line[..|line|] == line;
    return Some(cells);
  }

  /** A fault in the line after a prefix that parsed is the error of the whole input. */
  lemma ParseRowsError(lines: seq<string>, index: nat, cols: int, e: GridError)
    requires index < |lines| && cols == |lines[0]|
    requires ParseRows(lines[..index], cols).Ok?
    requires e == NonGridShape ==> |lines[index]| != cols
    requires e == NonStorageEntry ==> |lines[index]| == cols && !StorageLine(lines[index])
    ensures ParseGrid(lines) == Err(e)
  {
    assert lines[..index + 1][..index] == lines[..index];
    ParseRowsErrorSticks(lines, index + 1, cols, e);
    assert lines[..|lines|] == lines;
  }

  lemma {:induction false} ParseRowsErrorSticks(lines: seq<string>, k: nat, cols: int, e: GridError)
    requires 1 <= k <= |lines| && ParseRows(lines[..k], cols) == Err(e)
    ensures ParseRows(lines, cols) == Err(e)
    decreases |lines| - k
  {
    if k < |lines| {
      assert lines[..k + 1][..k] == lines[..k];
      ParseRowsErrorSticks(lines, k + 1, cols, e);
    } else {
      assert lines[..k] == lines;
    }
  }

  // ---------------------------------------------------------------------------
  // The grid as written: the width is taken from the first non-empty line

  /** The rows and the width the code as written ends with. */
  function ParseRowsAsWritten(lines: seq<string>): Result<(seq<seq<bool>>, int), GridError>
    decreases |lines|
  {
    if lines == [] then Ok(([], 0))
    else
      match ParseRowsAsWritten(lines[..|lines| - 1])
      case Err(e) => Err(e)
      case Ok((rows, cols)) =>
        var line := lines[|lines| - 1];
        var width := if cols == 0 then |line| else cols;
        if width != |line| then Err(NonGridShape)
        else
          match ParseRow(line)
          case None => Err(NonStorageEntry)
          case Some(row) => Ok((rows + [row], width))
  }

  /** `PaperRollStorage::new` as written. */
  function ParseGridAsWritten(lines: seq<string>): Result<Grid, GridError> {
    match ParseRowsAsWritten(lines)
    case Err(e) => Err(e)
    case Ok((rows, cols)) => Ok(Grid(rows, |lines|, cols))
  }

  /** As written, a leading empty line is accepted as an empty row of a grid whose width is set
      by the next line: the grid is ragged, and `is_paper_roll(0, 0)` would index past the end
      of row 0. Fixing the width by the first line refuses this input. */
  lemma RaggedGridAsWritten()
    ensures ParseGridAsWritten(["", "@"]) == Ok(Grid([[], [true]], 2, 1))
    ensures !Rectangular([[], [true]], 1)
    ensures ParseGrid(["", "@"]) == Err(NonGridShape)
  {
    var lines := ["", "@"];
    var empty: seq<string> := [];
    var one: seq<string> := [""];
    var roll := ParseRow("@");
    assert roll.Some? && |roll.value| == 1 && roll.value[0];
    assert roll.value == [true];
    assert ParseRow("") == Some([]);
    assert ParseRowsAsWritten(empty) == Ok(([], 0));
    assert one[..0] == empty && one[|one| - 1] == "";
    var none: seq<seq<bool>> := [];
    assert none + [[]] == [[]];
    assert ParseRowsAsWritten(one) == Ok(([[]], 0));
    assert lines[..|lines| - 1] == one && lines[|lines| - 1] == "@";
    var firstRow: seq<seq<bool>> := [[]];
    assert firstRow + [[true]] == [[], [true]];
    assert ParseRowsAsWritten(lines) == Ok(([[], [true]], 1));
    var ragged: seq<seq<bool>> := [[], [true]];
    assert |ragged[0]| != 1;
    assert ParseRows(one, 0) == Ok([[]]);
  }

  /** One more line for the code as written: its width is checked against the grid's (set by
      this line if the grid's is still 0), then its cells. */
  lemma AsWrittenNext(lines: seq<string>, index: nat, rows: seq<seq<bool>>, cols: int)
    requires index < |lines| && ParseRowsAsWritten(lines[..index]) == Ok((rows, cols))
    ensures var line := lines[index];
      var width := if cols == 0 then |line| else cols;
      ParseRowsAsWritten(lines[..index + 1])
        == if width != |line| then Err(NonGridShape)
           else match ParseRow(line)
             case None => Err(NonStorageEntry)
             case Some(row) => Ok((rows + [row], width))
  {
    assert lines[..index + 1][..index] == lines[..index];
  }

  /** Once a prefix of the lines fails, the code as written fails on all of them with the
      same error. */
  lemma {:induction false} AsWrittenErrorSticks(lines: seq<string>, k: nat, e: GridError)
    requires 1 <= k <= |lines| && ParseRowsAsWritten(lines[..k]) == Err(e)
    ensures ParseGridAsWritten(lines) == Err(e)
    decreases |lines| - k
  {
    if k < |lines| {
      assert lines[..k + 1][..k] == lines[..k];
      AsWrittenErrorSticks(lines, k + 1, e);
    } else {
      assert lines[..k] == lines;
    }
  }

  /** The code as written gives one row per line, each as long as its line, and every line is
      either empty or as wide as the grid. */
  lemma {:induction false} AsWrittenRows(lines: seq<string>)
    requires ParseRowsAsWritten(lines).Ok?
    ensures var (rows, cols) := ParseRowsAsWritten(lines).value;
      |rows| == |lines| && cols >= 0
      && forall i :: 0 <= i < |lines| ==> |rows[i]| == |lines[i]| && (|lines[i]| == cols || |lines[i]| == 0)
  {
    if lines != [] {
      var n := |lines|;
      AsWrittenRows(lines[..n - 1]);
      assert forall i :: 0 <= i < n - 1 ==> lines[..n - 1][i] == lines[i];
    }
  }

  /** A grid the code as written accepts is rectangular, or else its first row is empty while
      its width is positive, so the first `is_paper_roll(0, 0)` of `main` indexes past the end
      of row 0. */
  lemma AsWrittenGridShape(lines: seq<string>)
    requires ParseGridAsWritten(lines).Ok?
    ensures var g := ParseGridAsWritten(lines).value;
      g.rows == |g.storage| == |lines|
      && (Rectangular(g.storage, g.cols) || (g.storage != [] && g.storage[0] == [] && g.cols > 0))
  {
    AsWrittenRows(lines);
    var g := ParseGridAsWritten(lines).value;
    if !Rectangular(g.storage, g.cols) {
      if lines[0] != "" {
        AsWrittenAgrees(lines);
        ParseGridShape(lines);
      }
    }
  }

  /** When the first line is not empty, the code as written and the corrected parser agree. */
  lemma AsWrittenAgrees(lines: seq<string>)
    requires lines != [] && lines[0] != ""
    ensures ParseGridAsWritten(lines) == ParseGrid(lines)
  {
    AsWrittenAgreesRows(lines, |lines|);
    assert lines[..|lines|] == lines;
  }

  lemma {:induction false} AsWrittenAgreesRows(lines: seq<string>, k: nat)
    requires 1 <= k <= |lines| && lines[0] != ""
    ensures ParseRowsAsWritten(lines[..k])
         == match ParseRows(lines[..k], |lines[0]|)
            case Err(e) => Err(e)
            case Ok(rows) => Ok((rows, |lines[0]|))
  {
    var p := lines[..k];
    if k == 1 {
      assert p[..0] == [];
    } else {
      AsWrittenAgreesRows(lines, k - 1);
      assert p[..k - 1] == lines[..k - 1];
    }
  }

  // ---------------------------------------------------------------------------
  // Neighbours

  /** A roll at `(r, c)`; nothing outside the grid. */
  function Occupied(g: seq<seq<bool>>, cols: int, r: int, c: int): bool
    requires Rectangular(g, cols)
  {
    0 <= r < |g| && 0 <= c < cols && g[r][c]
  }

  function Bit(b: bool): nat {
    if b then 1 else 0
  }

  /** Whether `(r, c)` counts as an occupied neighbour of `(row, col)`. */
  function Neighbour(g: seq<seq<bool>>, cols: int, row: int, col: int, r: int, c: int): nat
    requires Rectangular(g, cols)
  {
    if r == row && c == col then 0 else Bit(Occupied(g, cols, r, c))
  }

  /** The neighbours in row `r` among the first `k` columns `col - 1, col, col + 1`. */
  function RowNeighbours(g: seq<seq<bool>>, cols: int, row: int, col: int, r: int, k: nat): nat
    requires Rectangular(g, cols) && k <= 3
  {
    if k == 0 then 0 else RowNeighbours(g, cols, row, col, r, k - 1) + Neighbour(g, cols, row, col, r, col - 2 + k)
  }

  /** The neighbours in the first `k` rows `row - 1, row, row + 1`. */
  function NeighboursUpTo(g: seq<seq<bool>>, cols: int, row: int, col: int, k: nat): nat
    requires Rectangular(g, cols) && k <= 3
  {
    if k == 0 then 0 else NeighboursUpTo(g, cols, row, col, k - 1) + RowNeighbours(g, cols, row, col, row - 2 + k, 3)
  }

  /** The occupied cells among the eight around `(row, col)`. */
  function NeighbourCount(g: seq<seq<bool>>, cols: int, row: int, col: int): nat
    requires Rectangular(g, cols)
  {
    NeighboursUpTo(g, cols, row, col, 3)
  }

  /** The neighbour count is the number of occupied cells among the eight surrounding ones,
      the centre excluded, so it is at most 8. */
  lemma NeighbourCountAround(g: seq<seq<bool>>, cols: int, row: int, col: int)
    requires Rectangular(g, cols)
    ensures NeighbourCount(g, cols, row, col)
         == Bit(Occupied(g, cols, row - 1, col - 1)) + Bit(Occupied(g, cols, row - 1, col)) + Bit(Occupied(g, cols, row - 1, col + 1))
          + Bit(Occupied(g, cols, row, col - 1)) + Bit(Occupied(g, cols, row, col + 1))
          + Bit(Occupied(g, cols, row + 1, col - 1)) + Bit(Occupied(g, cols, row + 1, col)) + Bit(Occupied(g, cols, row + 1, col + 1))
    ensures NeighbourCount(g, cols, row, col) <= 8
  {
    assert RowNeighbours(g, cols, row, col, row, 1) == Bit(Occupied(g, cols, row, col - 1));
    assert RowNeighbours(g, cols, row, col, row, 2) == Bit(Occupied(g, cols, row, col - 1));
    assert RowNeighbours(g, cols, row, col, row, 3) == Bit(Occupied(g, cols, row, col - 1)) + Bit(Occupied(g, cols, row, col + 1));
    RowAround(g, cols, row, col, row - 1);
    RowAround(g, cols, row, col, row + 1);
    assert NeighboursUpTo(g, cols, row, col, 1) == RowNeighbours(g, cols, row, col, row - 1, 3);
    assert NeighboursUpTo(g, cols, row, col, 2) == NeighboursUpTo(g, cols, row, col, 1) + RowNeighbours(g, cols, row, col, row, 3);
  }

  /** The three cells of a row other than the centre's. */
  lemma RowAround(g: seq<seq<bool>>, cols: int, row: int, col: int, r: int)
    requires Rectangular(g, cols) && r != row
    ensures RowNeighbours(g, cols, row, col, r, 3)
         == Bit(Occupied(g, cols, r, col - 1)) + Bit(Occupied(g, cols, r, col)) + Bit(Occupied(g, cols, r, col + 1))
  {
    assert RowNeighbours(g, cols, row, col, r, 1) == Bit(Occupied(g, cols, r, col - 1));
    assert RowNeighbours(g, cols, row, col, r, 2) == RowNeighbours(g, cols, row, col, r, 1) + Bit(Occupied(g, cols, r, col));
  }

  /** A roll that can be taken: fewer than four occupied neighbours. */
  predicate Removable(g: seq<seq<bool>>, cols: int, r: int, c: int)
    requires Rectangular(g, cols)
  {
    Occupied(g, cols, r, c) && NeighbourCount(g, cols, r, c) < 4
  }

  // ---------------------------------------------------------------------------
  // The storage

  class PaperRollStorage {
    var storage: seq<seq<bool>>
    var rows: int
    var cols: int

    ghost predicate Valid()
      reads this
    {
      rows == |storage| && Rectangular(storage, cols)
    }

    /** The storage of a parsed grid. */
    constructor (grid: Grid)
      requires grid.rows == |grid.storage| && Rectangular(grid.storage, grid.cols)
      ensures Valid() && storage == grid.storage && rows == grid.rows && cols == grid.cols
    {
      storage := grid.storage;
      rows := grid.rows;
      cols := grid.cols;
    }

    /** `take_paper_roll`: clears `(row, col)` and nothing else. */
    method TakePaperRoll(row: int, col: int)
      requires Valid() && 0 <= row < rows && 0 <= col < cols
      modifies this
      ensures Valid() && rows == old(rows) && cols == old(cols)
      ensures storage == old(storage)[row := old(storage)[row][col := false]]
    {
      storage := storage[row := storage[row][col := false]];
    }

    /** `is_paper_roll`: false for any coordinate outside the grid, the stored cell inside. */
    function IsPaperRoll(row: int, col: int): (roll: bool)
      reads this
      requires Valid()
      ensures roll == Occupied(storage, cols, row, col)
    {
      if row < 0 || col < 0 || row >= rows || col >= cols then false else storage[row][col]
    }

    /** `count_neighbours`: the occupied cells among the 3 x 3 block around `(row, col)`,
        skipping the centre. */
    method CountNeighbours(row: int, col: int) returns (count: int)
      requires Valid()
      ensures count == NeighbourCount(storage, cols, row, col)
    {
      count := 0;
      for r := row - 1 to row + 2
        invariant count == NeighboursUpTo(storage, cols, row, col, r - row + 1)
      {
        for c := col - 1 to col + 2
          invariant count == NeighboursUpTo(storage, cols, row, col, r - row + 1) + RowNeighbours(storage, cols, row, col, r, c - col + 1)
        {
          if r == row && c == col {
            continue;
          }
          if IsPaperRoll(r, c) {
            count := count + 1;
          }
        }
      }
    }
  }

  // ---------------------------------------------------------------------------
  // Part 1: the rolls that can be taken now

  /** The removable cells of row `r` among its first `c` columns. */
  function AccessibleInRow(g: seq<seq<bool>>, cols: int, r: int, c: nat): nat
    requires Rectangular(g, cols)
  {
    if c == 0 then 0 else AccessibleInRow(g, cols, r, c - 1) + Bit(Removable(g, cols, r, c - 1))
  }

  /** The removable cells of the first `r` rows. */
  function AccessibleRows(g: seq<seq<bool>>, cols: int, r: nat): nat
    requires Rectangular(g, cols)
  {
    if r == 0 then 0 else AccessibleRows(g, cols, r - 1) + AccessibleInRow(g, cols, r - 1, cols)
  }

  /** The number of rolls in the grid. */
  function RollCount(g: seq<seq<bool>>): nat {
    if g == [] then 0 else RollCount(g[..|g| - 1]) + Seqs.CountTrue(g[|g| - 1])
  }

  /** The first part of `main`: every roll with fewer than four neighbours, counted without
      taking any. */
  method CountAvailable(storage: PaperRollStorage) returns (available: nat)
    requires storage.Valid()
    ensures available == AccessibleRows(storage.storage, storage.cols, storage.rows)
  {
    available := 0;
    for row := 0 to storage.rows
      invariant available == AccessibleRows(storage.storage, storage.cols, row)
    {
      for col := 0 to storage.cols
        invariant available == AccessibleRows(storage.storage, storage.cols, row) + AccessibleInRow(storage.storage, storage.cols, row, col)
      {
        if !storage.IsPaperRoll(row, col) {
          continue;
        }
        var neighbours := storage.CountNeighbours(row, col);
        if neighbours < 4 {
          available := available + 1;
        }
      }
    }
  }

  /** Part 1 never counts more than the rolls there are. */
  lemma AccessibleAtMostRolls(g: seq<seq<bool>>, cols: int)
    requires Rectangular(g, cols)
    ensures AccessibleRows(g, cols, |g|) <= RollCount(g)
  {
    AccessibleRowsBound(g, cols, |g|);
    assert g[..|g|] == g;
  }

  lemma {:induction false} AccessibleRowsBound(g: seq<seq<bool>>, cols: int, r: nat)
    requires Rectangular(g, cols) && r <= |g|
    ensures AccessibleRows(g, cols, r) <= RollCount(g[..r])
  {
    if r > 0 {
      AccessibleRowsBound(g, cols, r - 1);
      assert g[..r][..r - 1] == g[..r - 1];
      AccessibleInRowBound(g, cols, r - 1, cols);
      assert g[r - 1][..cols] == g[r - 1];
    }
  }

  lemma {:induction false} AccessibleInRowBound(g: seq<seq<bool>>, cols: int, r: nat, c: nat)
    requires Rectangular(g, cols) && r < |g| && c <= cols
    ensures AccessibleInRow(g, cols, r, c) <= Seqs.CountTrue(g[r][..c])
  {
    if c > 0 {
      AccessibleInRowBound(g, cols, r, c - 1);
      assert g[r][..c][..c - 1] == g[r][..c - 1];
    }
  }

  // ---------------------------------------------------------------------------
  // Part 2: sweeps that take rolls in place

  /** The roll count after clearing one cell. */
  lemma {:induction false} RollCountClear(g: seq<seq<bool>>, r: nat, c: nat)
    requires r < |g| && c < |g[r]|
    ensures RollCount(g[r := g[r][c := false]]) == RollCount(g) - Bit(g[r][c])
  {
    var n := |g|;
    var h := g[r := g[r][c := false]];
    if r == n - 1 {
      assert h[..n - 1] == g[..n - 1];
      Seqs.CountTrueClear(g[r], c);
    } else {
      assert h[..n - 1] == g[..n - 1][r := g[r][c := false]];
      RollCountClear(g[..n - 1], r, c);
    }
  }

  /** Row `r` swept over its first `c` columns, each roll taken as soon as it has fewer than
      four neighbours in the grid as it is then: the new grid and the rolls taken. */
  function SweepRow(g: seq<seq<bool>>, cols: int, r: nat, c: nat): (swept: (seq<seq<bool>>, nat))
    requires Rectangular(g, cols) && r < |g| && c <= cols
    ensures Rectangular(swept.0, cols) && |swept.0| == |g|
    ensures RollCount(swept.0) + swept.1 == RollCount(g)
  {
    if c == 0 then (g, 0)
    else
      var (h, taken) := SweepRow(g, cols, r, c - 1);
      if Removable(h, cols, r, c - 1) then
        RollCountClear(h, r, c - 1);
        (h[r := h[r][c - 1 := false]], taken + 1)
      else (h, taken)
  }

  /** The first `r` rows swept in order. */
  function SweepRows(g: seq<seq<bool>>, cols: int, r: nat): (swept: (seq<seq<bool>>, nat))
    requires Rectangular(g, cols) && r <= |g|
    ensures Rectangular(swept.0, cols) && |swept.0| == |g|
    ensures RollCount(swept.0) + swept.1 == RollCount(g)
  {
    if r == 0 then (g, 0)
    else
      var (h, taken) := SweepRows(g, cols, r - 1);
      var (k, more) := SweepRow(h, cols, r - 1, cols);
      (k, taken + more)
  }

  /** One pass of the `loop` of `main`: the grid after it and the rolls it took. */
  function Sweep(g: seq<seq<bool>>, cols: int): (swept: (seq<seq<bool>>, nat))
    requires Rectangular(g, cols)
    ensures Rectangular(swept.0, cols) && |swept.0| == |g|
    ensures RollCount(swept.0) + swept.1 == RollCount(g)
  {
    SweepRows(g, cols, |g|)
  }

  /** Sweeps until one takes nothing: the final grid and the rolls taken in all. */
  function Settle(g: seq<seq<bool>>, cols: int): (settled: (seq<seq<bool>>, nat))
    requires Rectangular(g, cols)
    ensures Rectangular(settled.0, cols) && |settled.0| == |g|
    decreases RollCount(g)
  {
    var (h, taken) := Sweep(g, cols);
    if taken == 0 then (h, 0)
    else
      var (k, more) := Settle(h, cols);
      (k, taken + more)
  }

  /** Part 2 takes at most the rolls the grid started with, and leaves them all but
      the ones it took. */
  lemma {:induction false} SettleBound(g: seq<seq<bool>>, cols: int)
    requires Rectangular(g, cols)
    ensures RollCount(Settle(g, cols).0) + Settle(g, cols).1 == RollCount(g)
    ensures Settle(g, cols).1 <= RollCount(g)
    decreases RollCount(g)
  {
    var (h, taken) := Sweep(g, cols);
    if taken != 0 {
      SettleBound(h, cols);
    }
  }

  /** A sweep that takes nothing leaves the grid as it was, and then no roll has fewer than four
      neighbours. */
  lemma SweepNothingIsStable(g: seq<seq<bool>>, cols: int)
    requires Rectangular(g, cols) && Sweep(g, cols).1 == 0
    ensures Sweep(g, cols).0 == g
    ensures forall r, c :: !Removable(g, cols, r, c)
  {
    SweepRowsNothing(g, cols, |g|);
  }

  lemma {:induction false} SweepRowsNothing(g: seq<seq<bool>>, cols: int, r: nat)
    requires Rectangular(g, cols) && r <= |g| && SweepRows(g, cols, r).1 == 0
    ensures SweepRows(g, cols, r).0 == g
    ensures forall i, c :: 0 <= i < r && 0 <= c < cols ==> !Removable(g, cols, i, c)
  {
    if r > 0 {
      SweepRowsNothing(g, cols, r - 1);
      SweepRowNothing(g, cols, r - 1, cols);
    }
  }

  lemma {:induction false} SweepRowNothing(g: seq<seq<bool>>, cols: int, r: nat, c: nat)
    requires Rectangular(g, cols) && r < |g| && c <= cols && SweepRow(g, cols, r, c).1 == 0
    ensures SweepRow(g, cols, r, c).0 == g
    ensures forall j :: 0 <= j < c ==> !Removable(g, cols, r, j)
  {
    if c > 0 {
      SweepRowNothing(g, cols, r, c - 1);
    }
  }

  /** Part 2 ends on a grid where no roll has fewer than four neighbours. */
  lemma {:induction false} SettleIsStable(g: seq<seq<bool>>, cols: int)
    requires Rectangular(g, cols)
    ensures forall r, c :: !Removable(Settle(g, cols).0, cols, r, c)
    decreases RollCount(g)
  {
    var (h, taken) := Sweep(g, cols);
    if taken == 0 {
      SweepNothingIsStable(g, cols);
    } else {
      SettleIsStable(h, cols);
    }
  }

  /** One pass of the `loop` of `main`: every roll, in row-major order, that has fewer than four
      neighbours when it is reached is taken at once, so later cells see the earlier removals. */
  method SweepOnce(storage: PaperRollStorage) returns (taken: nat)
    requires storage.Valid()
    modifies storage
    ensures storage.Valid() && storage.rows == old(storage.rows) && storage.cols == old(storage.cols)
    ensures storage.storage == Sweep(old(storage.storage), storage.cols).0
    ensures taken == Sweep(old(storage.storage), storage.cols).1
  {
    ghost var g := storage.storage;
    taken := 0;
    for row := 0 to storage.rows
      invariant storage.Valid() && storage.rows == old(storage.rows) && storage.cols == old(storage.cols)
      invariant storage.storage == SweepRows(g, storage.cols, row).0 && taken == SweepRows(g, storage.cols, row).1
    {
      ghost var before := SweepRows(g, storage.cols, row);
      for col := 0 to storage.cols
        invariant storage.Valid() && storage.rows == old(storage.rows) && storage.cols == old(storage.cols)
        invariant storage.storage == SweepRow(before.0, storage.cols, row, col).0
        invariant taken == before.1 + SweepRow(before.0, storage.cols, row, col).1
      {
        if !storage.IsPaperRoll(row, col) {
          continue;
        }
        var neighbours := storage.CountNeighbours(row, col);
        if neighbours < 4 {
          storage.TakePaperRoll(row, col);
          taken := taken + 1;
        }
      }
    }
  }

  /** The second part of `main`: sweep until a sweep takes nothing, counting all rolls taken. */
  method TakeAllAvailable(storage: PaperRollStorage) returns (available: nat)
    requires storage.Valid()
    modifies storage
    ensures storage.Valid() && storage.rows == old(storage.rows) && storage.cols == old(storage.cols)
    ensures storage.storage == Settle(old(storage.storage), storage.cols).0
    ensures available == Settle(old(storage.storage), storage.cols).1
  {
    available := 0;
    while true
      invariant storage.Valid() && storage.rows == old(storage.rows) && storage.cols == old(storage.cols)
      invariant Settle(old(storage.storage), storage.cols).0 == Settle(storage.storage, storage.cols).0
      invariant Settle(old(storage.storage), storage.cols).1 == available + Settle(storage.storage, storage.cols).1
      decreases RollCount(storage.storage)
    {
      ghost var before := storage.storage;
      var taken := SweepOnce(storage);
      available := available + taken;
      if taken == 0 {
        assert Settle(before, storage.cols) == (storage.storage, 0);
        break;
      }
    }
  }
}
