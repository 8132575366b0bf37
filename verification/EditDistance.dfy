/** The unrestricted Damerau-Levenshtein distance by its last-occurrence recurrence, and what it measures. */
module EditDistance {
  import opened Text

  /** The greatest `r` up to `k` with `s[r - 1] == c`, counting positions from one; zero when there is none. */
  function Last(s: Text, k: nat, c: CodeUnit): (r: nat)
    requires k <= |s|
    ensures r <= k && (r > 0 ==> s[r - 1] == c) && (forall q :: r <= q < k ==> s[q] != c)
  {
    if k == 0 then 0 else if s[k - 1] == c then k else Last(s, k - 1, c)
  }

  /** The cost of substituting, or keeping, the last characters of both prefixes. */
  function Swap(a: Text, b: Text, i: nat, j: nat): nat
    requires 0 < i <= |a| && 0 < j <= |b|
  {
    if a[i - 1] == b[j - 1] then 0 else 1
  }

  /** The nearest earlier pair that a transposition can bring together: its position in `a`, and in `b`. */
  function PriorRow(a: Text, b: Text, i: nat, j: nat): (k: nat)
    requires 0 < i <= |a| && 0 < j <= |b|
    ensures k < i
  {
    Last(a, i - 1, b[j - 1])
  }

  function PriorColumn(a: Text, b: Text, i: nat, j: nat): (l: nat)
    requires 0 < i <= |a| && 0 < j <= |b|
    ensures l < j
  {
    Last(b, j - 1, a[i - 1])
  }

  /** Distance of the first `i` characters of `a` from the first `j` of `b`. */
  function Distance(a: Text, b: Text, i: nat, j: nat): nat
    requires i <= |a| && j <= |b|
    decreases i + j
  {
    if i == 0 then j
    else if j == 0 then i
    else
      var edited := Min(Distance(a, b, i - 1, j - 1) + Swap(a, b, i, j),
        Min(Distance(a, b, i, j - 1) + 1, Distance(a, b, i - 1, j) + 1));
      var k, l := PriorRow(a, b, i, j), PriorColumn(a, b, i, j);
      if k == 0 || l == 0 then edited
      else Min(edited, Distance(a, b, k - 1, l - 1) + (i - k - 1) + 1 + (j - l - 1))
  }

  lemma NoDistance(a: Text, b: Text, i: nat, j: nat)
    requires i <= |a| && j <= |b| && (i == 0 || j == 0)
    ensures Distance(a, b, i, j) == i + j
  {
  }

  /** The recurrence, unfolded once. */
  lemma DistanceStep(a: Text, b: Text, i: nat, j: nat)
    requires 0 < i <= |a| && 0 < j <= |b|
    ensures var edited := Min(Distance(a, b, i - 1, j - 1) + Swap(a, b, i, j),
      Min(Distance(a, b, i, j - 1) + 1, Distance(a, b, i - 1, j) + 1));
            var k, l := PriorRow(a, b, i, j), PriorColumn(a, b, i, j);
            Distance(a, b, i, j) == if k == 0 || l == 0 then edited
                                    else Min(edited, Distance(a, b, k - 1, l - 1) + (i - k - 1) + 1 + (j - l - 1))
  {
    hide Min, Swap, PriorRow, PriorColumn, Last;
  }

  /** The distance lies between the difference and the maximum of the lengths. */
  lemma {:induction false} DistanceBounds(a: Text, b: Text, i: nat, j: nat)
    requires i <= |a| && j <= |b|
    ensures i - j <= Distance(a, b, i, j) && j - i <= Distance(a, b, i, j) && Distance(a, b, i, j) <= Max(i, j)
    decreases i + j
  {
    hide Distance, PriorRow, PriorColumn;
    if i == 0 || j == 0 {
      NoDistance(a, b, i, j);
    } else {
      DistanceStep(a, b, i, j);
      DistanceBounds(a, b, i - 1, j - 1);
      DistanceBounds(a, b, i, j - 1);
      DistanceBounds(a, b, i - 1, j);
      var k, l := PriorRow(a, b, i, j), PriorColumn(a, b, i, j);
      if k > 0 && l > 0 {
        DistanceBounds(a, b, k - 1, l - 1);
      }
    }
  }

  lemma {:induction false} DistanceIsSymmetric(a: Text, b: Text, i: nat, j: nat)
    requires i <= |a| && j <= |b|
    ensures Distance(a, b, i, j) == Distance(b, a, j, i)
    decreases i + j
  {
    hide Distance;
    if i == 0 || j == 0 {
      NoDistance(a, b, i, j);
      NoDistance(b, a, j, i);
    } else {
      DistanceStep(a, b, i, j);
      DistanceStep(b, a, j, i);
      DistanceIsSymmetric(a, b, i - 1, j - 1);
      DistanceIsSymmetric(a, b, i, j - 1);
      DistanceIsSymmetric(a, b, i - 1, j);
      var k, l := PriorRow(a, b, i, j), PriorColumn(a, b, i, j);
      assert PriorRow(b, a, j, i) == l && PriorColumn(b, a, j, i) == k;
      hide PriorRow, PriorColumn;
      if k > 0 && l > 0 {
        DistanceIsSymmetric(a, b, k - 1, l - 1);
      }
    }
  }

  /** Only equal texts are at distance zero. */
  lemma {:induction false} ZeroDistance(a: Text, b: Text, i: nat, j: nat)
    requires i <= |a| && j <= |b|
    ensures Distance(a, b, i, j) == 0 <==> a[..i] == b[..j]
    decreases i + j
  {
    hide Distance, PriorRow, PriorColumn;
    if i == 0 || j == 0 {
      NoDistance(a, b, i, j);
    } else {
      DistanceStep(a, b, i, j);
      ZeroDistance(a, b, i - 1, j - 1);
      assert a[..i] == a[..i - 1] + [a[i - 1]] && b[..j] == b[..j - 1] + [b[j - 1]];
      if a[..i] == b[..j] {
        assert a[..i][i - 1] == b[..j][j - 1];
        assert a[..i - 1] == a[..i][..i - 1] && b[..j - 1] == b[..j][..j - 1];
      }
    }
  }

  // The value of a table cell: one row and one column of a bound no distance reaches stand before the distances.

  function Cell(a: Text, b: Text, row: nat, column: nat): nat
    requires row <= |a| + 1 && column <= |b| + 1
  {
    if row == 0 || column == 0 then |a| + |b| else Distance(a, b, row - 1, column - 1)
  }

  function Min4(a: nat, b: nat, c: nat, d: nat): nat { Min(Min(a, b), Min(c, d)) }

  /** How the table's cell is computed from earlier cells. */
  lemma CellStep(a: Text, b: Text, row: nat, column: nat)
    requires 0 < row <= |a| && 0 < column <= |b|
    ensures var k, l := PriorRow(a, b, row, column), PriorColumn(a, b, row, column);
            Cell(a, b, row + 1, column + 1)
            == Min4(Cell(a, b, row, column) + Swap(a, b, row, column), Cell(a, b, row + 1, column) + 1,
                    Cell(a, b, row, column + 1) + 1, Cell(a, b, k, l) + row - k + column - l - 1)
  {
    hide Distance, PriorRow, PriorColumn;
    DistanceStep(a, b, row, column);
    DistanceBounds(a, b, row, column - 1);
  }

  lemma CellIsSmall(a: Text, b: Text, row: nat, column: nat)
    requires row <= |a| + 1 && column <= |b| + 1
    ensures Cell(a, b, row, column) <= |a| + |b|
  {
    hide Distance;
    if row > 0 && column > 0 {
      DistanceBounds(a, b, row - 1, column - 1);
    }
  }
}
