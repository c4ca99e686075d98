/** Integer facts about flattening a row-major (rows x cols) index. */
module Arith {

  lemma MulLeft(a: int, b: int, n: nat)
    requires a <= b
    ensures a * n <= b * n
  {
  }

  /** Position i*n + c of a row-major layout with 0 <= c < n lies in row i, column c. */
  lemma FlatDivMod(i: nat, c: nat, n: nat)
    requires c < n
    ensures (i * n + c) / n == i && (i * n + c) % n == c
  {
    var p := i * n + c;
    var q, r := p / n, p % n;
    assert p == q * n + r;
    if q < i {
      MulLeft(q + 1, i, n);
      assert false;
    } else if q > i {
      MulLeft(i + 1, q, n);
      assert false;
    }
  }

  /** Row-major order agrees with the lexicographic order on (row, column). */
  lemma FlatLess(r: nat, c: nat, row: nat, col: nat, n: nat)
    requires c < n && col <= n
    ensures (r < row || (r == row && c < col)) <==> r * n + c < row * n + col
  {
    if r < row {
      MulLeft(r + 1, row, n);
    } else if r > row {
      MulLeft(row + 1, r, n);
    }
  }

  /** Advancing a position by one advances its remainder cyclically. */
  lemma ModSucc(p: nat, n: nat)
    requires n > 0
    ensures (p + 1) % n == if p % n == n - 1 then 0 else p % n + 1
  {
    var q := p / n;
    assert p == q * n + p % n;
    if p % n == n - 1 {
      assert p + 1 == (q + 1) * n;
      FlatDivMod(q + 1, 0, n);
    } else {
      FlatDivMod(q, p % n + 1, n);
    }
  }

  lemma ModShift(p: nat, n: nat)
    requires n > 0
    ensures (p + n) % n == p % n
  {
    var q := p / n;
    assert p == q * n + p % n;
    assert p + n == (q + 1) * n + p % n;
    FlatDivMod(q + 1, p % n, n);
  }

  /** Integer division rounds down: q * n <= p < q * n + n. */
  lemma DivFloor(p: nat, n: nat)
    requires n > 0
    ensures (p / n) * n <= p < (p / n) * n + n
  {
  }

  /** A position below rows * n lies in one of the rows. */
  lemma DivBelow(p: nat, rows: nat, n: nat)
    requires n > 0 && p < rows * n
    ensures p / n < rows
  {
    if p / n >= rows {
      MulLeft(rows, p / n, n);
    }
  }
}
