/** How near a file name is to the one asked for: the distance table, and the budget that keeps it small. */
module ReadSuggestions {
  import opened Text
  import opened EditDistance

  /** What a 16-bit cell keeps of a number. */
  const CELL_RANGE := 0x1_0000

  lemma CellIndex(height: nat, width: nat, row: nat, column: nat)
    requires row < height && column < width
    ensures row * width + column < height * width
  {
    assert (row + 1) * width <= height * width;
  }

  lemma RowsApart(width: nat, row: nat, later: nat)
    requires row < later
    ensures row * width + width <= later * width
  {
    assert (row + 1) * width <= later * width;
  }

  lemma CellsDiffer(width: nat, row: nat, column: nat, row': nat, column': nat)
    requires column < width && column' < width && row * width + column == row' * width + column'
    ensures row == row' && column == column'
  {
    if row < row' {
      RowsApart(width, row, row');
    } else if row' < row {
      RowsApart(width, row', row);
    }
  }

  /** A table of 16-bit cells, laid out row after row. */
  class Table {
    const cells: array<nat>
    const width: nat
    const height: nat

    ghost predicate Valid() {
      cells.Length == height * width
    }

    ghost predicate Has(row: nat, column: nat) {
      row < height && column < width
    }

    ghost function View(row: nat, column: nat): nat
      requires Valid() && Has(row, column)
      reads cells
    {
      CellIndex(height, width, row, column);
      cells[row * width + column]
    }

    constructor (height: nat, width: nat)
      ensures Valid() && fresh(cells) && this.height == height && this.width == width
    {
      this.height, this.width := height, width;
      cells := new nat[height * width](i => 0);
    }

    method At(row: nat, column: nat) returns (value: nat)
      requires Valid() && Has(row, column)
      ensures value == View(row, column)
    {
      CellIndex(height, width, row, column);
      value := cells[row * width + column];
    }

    method Store(row: nat, column: nat, value: nat)
      requires Valid() && Has(row, column)
      modifies cells
      ensures View(row, column) == value % CELL_RANGE
      ensures forall r: nat, c: nat :: Has(r, c) && (r != row || c != column) ==> View(r, c) == old(View(r, c))
    {
      CellIndex(height, width, row, column);
      cells[row * width + column] := value % CELL_RANGE;
      forall r: nat, c: nat | Has(r, c) && (r != row || c != column) ensures View(r, c) == old(View(r, c)) {
        CellIndex(height, width, r, c);
        if r * width + c == row * width + column {
          CellsDiffer(width, r, c, row, column);
        }
      }
    }
  }

  /** What a cell of the table for `a` and `b` keeps: the recurrence, wrapped at every cell. */
  function Stored(a: Text, b: Text, row: nat, column: nat): nat
    requires row <= |a| + 1 && column <= |b| + 1
    decreases row + column
  {
    if row == 0 || column == 0 then (|a| + |b|) % CELL_RANGE
    else if row == 1 then (column - 1) % CELL_RANGE
    else if column == 1 then (row - 1) % CELL_RANGE
    else
      var k, l := PriorRow(a, b, row - 1, column - 1), PriorColumn(a, b, row - 1, column - 1);
      Min4(Stored(a, b, row - 1, column - 1) + Swap(a, b, row - 1, column - 1), Stored(a, b, row, column - 1) + 1,
           Stored(a, b, row - 1, column) + 1, Stored(a, b, k, l) + row - 1 - k + column - 1 - l - 1) % CELL_RANGE
  }

  lemma StoredStep(a: Text, b: Text, row: nat, column: nat)
    requires 0 < row <= |a| && 0 < column <= |b|
    ensures var k, l := PriorRow(a, b, row, column), PriorColumn(a, b, row, column);
            Stored(a, b, row + 1, column + 1)
            == Min4(Stored(a, b, row, column) + Swap(a, b, row, column), Stored(a, b, row + 1, column) + 1,
                    Stored(a, b, row, column + 1) + 1, Stored(a, b, k, l) + row - k + column - l - 1) % CELL_RANGE
  {
    hide PriorRow, PriorColumn, Min4, Swap;
  }

  lemma BorderIs(a: Text, b: Text, row: nat, column: nat)
    requires |a| + |b| < CELL_RANGE && row <= |a| + 1 && column <= |b| + 1 && (row <= 1 || column <= 1)
    ensures Stored(a, b, row, column) == Cell(a, b, row, column)
  {
    hide Distance;
    if row > 0 && column > 0 { NoDistance(a, b, row - 1, column - 1); }
  }

  /** No cell wraps while the texts together stay below its range. */
  lemma {:induction false} NothingWraps(a: Text, b: Text, row: nat, column: nat)
    requires |a| + |b| < CELL_RANGE && row <= |a| + 1 && column <= |b| + 1
    ensures Stored(a, b, row, column) == Cell(a, b, row, column)
    decreases row + column
  {
    hide Distance, PriorRow, PriorColumn, Swap, Min4, Stored, Cell;
    if row <= 1 || column <= 1 {
      BorderIs(a, b, row, column);
    } else {
      NothingWraps(a, b, row - 1, column - 1);
      NothingWraps(a, b, row, column - 1);
      NothingWraps(a, b, row - 1, column);
      NothingWraps(a, b, PriorRow(a, b, row - 1, column - 1), PriorColumn(a, b, row - 1, column - 1));
      StoredStep(a, b, row - 1, column - 1);
      CellStep(a, b, row - 1, column - 1);
      CellIsSmall(a, b, row, column);
    }
  }

  /** The table for `a` and `b` is right wherever `row`, `column` says it is filled. */
  ghost predicate Filled(t: Table, a: Text, b: Text, row: nat, column: nat)
    requires t.Valid() && t.height == |a| + 2 && t.width == |b| + 2
    reads t.cells
  {
    forall r: nat, c: nat :: t.Has(r, c) && (r <= 1 || c <= 1 || r <= row || (r == row + 1 && c <= column)) ==>
      t.View(r, c) == Stored(a, b, r, c)
  }

  ghost predicate Sized(t: Table, a: Text, b: Text) {
    t.Valid() && t.height == |a| + 2 && t.width == |b| + 2
  }

  /** The bound before the first row and column, and the distances from the empty text. */
  method Frame(t: Table, a: Text, b: Text)
    requires Sized(t, a, b)
    modifies t.cells
    ensures Filled(t, a, b, 1, 1)
  {
    hide Table.View;
    var infinity := |a| + |b|;
    t.Store(0, 0, infinity);
    var row := 0;
    while row <= |a|
      invariant row <= |a| + 1 && t.View(0, 0) == infinity % CELL_RANGE
      invariant forall r: nat :: 1 <= r <= row ==>
        t.View(r, 0) == infinity % CELL_RANGE && t.View(r, 1) == (r - 1) % CELL_RANGE
    {
      t.Store(row + 1, 0, infinity);
      t.Store(row + 1, 1, row);
      row := row + 1;
    }
    var column := 0;
    while column <= |b|
      invariant column <= |b| + 1 && t.View(0, 0) == infinity % CELL_RANGE
      invariant forall r: nat :: 1 <= r <= |a| + 1 ==>
        t.View(r, 0) == infinity % CELL_RANGE && t.View(r, 1) == (r - 1) % CELL_RANGE
      invariant forall c: nat :: 1 <= c <= column ==>
        t.View(0, c) == infinity % CELL_RANGE && t.View(1, c) == (c - 1) % CELL_RANGE
    {
      t.Store(0, column + 1, infinity);
      t.Store(1, column + 1, column);
      column := column + 1;
    }
  }

  /** Where each character was last seen in the rows done. */
  ghost predicate Remembers(lastRow: map<CodeUnit, nat>, a: Text, rows: nat)
    requires rows <= |a|
  {
    forall c: CodeUnit :: (if c in lastRow then lastRow[c] else 0) == Last(a, rows, c)
  }

  method FillRow(t: Table, a: Text, b: Text, row: nat, lastRow: map<CodeUnit, nat>)
    requires Sized(t, a, b) && 1 <= row <= |a| && Filled(t, a, b, row, 1) && Remembers(lastRow, a, row - 1)
    modifies t.cells
    ensures Filled(t, a, b, row + 1, 1)
  {
    hide Table.View, Stored;
    var lastColumn, column := 0, 1;
    while column <= |b|
      invariant 1 <= column <= |b| + 1
      invariant lastColumn == Last(b, column - 1, a[row - 1])
      invariant Filled(t, a, b, row, column)
    {
      var priorRow := if b[column - 1] in lastRow then lastRow[b[column - 1]] else 0;
      var priorColumn := lastColumn;
      if a[row - 1] == b[column - 1] { lastColumn := column; }
      FillCell(t, a, b, row, column, priorRow, priorColumn);
      column := column + 1;
    }
  }

  method FillCell(t: Table, a: Text, b: Text, row: nat, column: nat, priorRow: nat, priorColumn: nat)
    requires Sized(t, a, b) && 1 <= row <= |a| && 1 <= column <= |b| && Filled(t, a, b, row, column)
    requires priorRow == PriorRow(a, b, row, column) && priorColumn == PriorColumn(a, b, row, column)
    modifies t.cells
    ensures Filled(t, a, b, row, column + 1)
  {
    hide Table.View, Stored, PriorRow, PriorColumn;
    var value := NextCell(t, a, b, row, column, priorRow, priorColumn);
    t.Store(row + 1, column + 1, value);
  }

  method NextCell(t: Table, a: Text, b: Text, row: nat, column: nat, priorRow: nat,
      priorColumn: nat) returns (value: nat)
    requires Sized(t, a, b) && 1 <= row <= |a| && 1 <= column <= |b| && Filled(t, a, b, row, column)
    requires priorRow == PriorRow(a, b, row, column) && priorColumn == PriorColumn(a, b, row, column)
    ensures value % CELL_RANGE == Stored(a, b, row + 1, column + 1)
  {
    hide Table.View, Stored, PriorRow, PriorColumn, Min4, Swap;
    var replaced := t.At(row, column);
    var inserted := t.At(row + 1, column);
    var deleted := t.At(row, column + 1);
    var transposed := t.At(priorRow, priorColumn);
    StoredStep(a, b, row, column);
    value := Min4(replaced + Swap(a, b, row, column), inserted + 1, deleted + 1,
      transposed + row - priorRow + column - priorColumn - 1);
  }

  /** The last cell of the wrapping table, which is the distance when the texts together stay below a cell's range. */
  method DamerauLevenshtein(a: Text, b: Text) returns (d: nat)
    ensures d == Stored(a, b, |a| + 1, |b| + 1)
    ensures |a| + |b| < CELL_RANGE ==> d == Distance(a, b, |a|, |b|)
  {
    hide Table.View, Remembers, Stored, Distance;
    var t := new Table(|a| + 2, |b| + 2);
    Frame(t, a, b);
    var lastRow: map<CodeUnit, nat> := map[];
    NothingSeen(a);
    var row := 1;
    while row <= |a|
      invariant 1 <= row <= |a| + 1 && t.Valid() && fresh(t.cells)
      invariant Filled(t, a, b, row, 1) && Remembers(lastRow, a, row - 1)
    {
      FillRow(t, a, b, row, lastRow);
      RowSeen(lastRow, a, row);
      lastRow := lastRow[a[row - 1] := row];
      row := row + 1;
    }
    d := t.At(|a| + 1, |b| + 1);
    if |a| + |b| < CELL_RANGE { NothingWraps(a, b, |a| + 1, |b| + 1); }
  }

  lemma NothingSeen(a: Text)
    ensures Remembers(map[], a, 0)
  {
  }

  lemma RowSeen(lastRow: map<CodeUnit, nat>, a: Text, row: nat)
    requires 1 <= row <= |a| && Remembers(lastRow, a, row - 1)
    ensures Remembers(lastRow[a[row - 1] := row], a, row)
  {
  }

  // Similarity under a budget of table cells.

  const SCORING_CELL_BUDGET := 8_000_000

  /** The cells a comparison costs; none when it is decided without a table. */
  function DistanceCells(left: Text, right: Text): nat {
    if left == right || Min(|left|, |right|) < 3
      || 2 * (Max(|left|, |right|) - Min(|left|, |right|)) > Max(|left|, |right|)
    then 0 else |left| * |right|
  }

  /** One for equal names, none for names too short or too different in length, and else how little they differ. */
  function Score(left: Text, right: Text): real {
    if left == right then 1.0
    else if DistanceCells(left, right) == 0 then 0.0
    else 1.0 - Distance(left, right, |left|, |right|) as real / Max(|left|, |right|) as real
  }

  /** Lengths within a factor of two of each other whose product is in the budget are short. */
  lemma BudgetKeepsNamesShort(left: Text, right: Text)
    requires 0 < DistanceCells(left, right) <= SCORING_CELL_BUDGET
    ensures |left| + |right| <= 8000
  {
    ProductIsLarge(Max(|left|, |right|), Min(|left|, |right|));
  }

  lemma ProductIsLarge(longer: nat, shorter: nat)
    requires shorter <= longer <= 2 * shorter && longer * shorter <= SCORING_CELL_BUDGET
    ensures longer <= 4000
  {
    if longer > 4000 {
      ProductGrows(longer, shorter);
    }
  }

  lemma ProductGrows(m: nat, n: nat)
    requires m >= 4001 && n >= 2001
    ensures m * n >= 4001 * 2001
  {
    assert m * n >= 4001 * n;
  }

  lemma ScoreInRange(left: Text, right: Text)
    ensures 0.0 <= Score(left, right) <= 1.0
    ensures Score(left, right) == 1.0 <==> left == right
    ensures Score(left, right) == Score(right, left)
  {
    if left != right && DistanceCells(left, right) > 0 {
      var d, n := Distance(left, right, |left|, |right|), Max(|left|, |right|);
      DistanceBounds(left, right, |left|, |right|);
      ZeroDistance(left, right, |left|, |right|);
      assert left[..|left|] == left && right[..|right|] == right;
      DistanceIsSymmetric(left, right, |left|, |right|);
      Ratio(d, n);
    }
    assert DistanceCells(left, right) == DistanceCells(right, left);
  }

  lemma Ratio(d: nat, n: nat)
    requires 0 < d <= n
    ensures 0.0 < d as real / n as real <= 1.0
  {
  }

  class Budget {
    var remaining: int

    constructor ()
      ensures remaining == SCORING_CELL_BUDGET
    {
      remaining := SCORING_CELL_BUDGET;
    }
  }

  /** The score of two names while the budget lasts; the table it fills never wraps. */
  method Similarity(left: Text, right: Text, budget: Budget) returns (score: real)
    requires budget.remaining <= SCORING_CELL_BUDGET
    modifies budget
    ensures budget.remaining == old(budget.remaining) - DistanceCells(left, right)
    ensures score == if DistanceCells(left, right) == 0 || budget.remaining >= 0 then Score(left, right) else 0.0
    ensures 0.0 <= score <= 1.0
  {
    hide Distance;
    ScoreInRange(left, right);
    if left == right { return 1.0; }
    var cells := DistanceCells(left, right);
    if cells == 0 { return 0.0; }
    budget.remaining := budget.remaining - cells;
    if budget.remaining < 0 { return 0.0; }
    BudgetKeepsNamesShort(left, right);
    var d := DamerauLevenshtein(left, right);
    score := 1.0 - d as real / Max(|left|, |right|) as real;
  }
}
