/** Grid cells and the list operations on them that the Part B engine shares:
    translation, the minimum row and column, normalisation to the origin,
    first-occurrence de-duplication (what a Map keyed by "row:col" does) and
    the row-major sort used to compare shapes. */
module Cells {

  /** A (row, col) position; the source writes it as [row, col] or {row, col}. */
  datatype Cell = Cell(row: int, col: int)

  /** Two cell lists share no cell. */
  predicate NoSharedCell(a: seq<Cell>, b: seq<Cell>)
  {
    forall x :: x in a ==> x !in b
  }

  /** No cell occurs twice. */
  predicate Distinct(s: seq<Cell>)
  {
    forall i, j :: 0 <= i < j < |s| ==> s[i] != s[j]
  }

  /** Every element of `s` shifted by (dr, dc). */
  function Translate(s: seq<Cell>, dr: int, dc: int): (r: seq<Cell>)
    ensures |r| == |s|
    ensures forall i :: 0 <= i < |s| ==> r[i] == Cell(s[i].row + dr, s[i].col + dc)
  {
    seq(|s|, i requires 0 <= i < |s| => Cell(s[i].row + dr, s[i].col + dc))
  }

  /** Math.min over the rows of a non-empty list. */
  function MinRow(s: seq<Cell>): int
    requires |s| > 0
  {
    if |s| == 1 then s[0].row
    else
      var rest := MinRow(s[1..]);
      if s[0].row <= rest then s[0].row else rest
  }

  /** Math.min over the columns of a non-empty list. */
  function MinCol(s: seq<Cell>): int
    requires |s| > 0
  {
    if |s| == 1 then s[0].col
    else
      var rest := MinCol(s[1..]);
      if s[0].col <= rest then s[0].col else rest
  }

  /** Math.max over the rows of a non-empty list. */
  function MaxRow(s: seq<Cell>): int
    requires |s| > 0
  {
    if |s| == 1 then s[0].row
    else
      var rest := MaxRow(s[1..]);
      if s[0].row >= rest then s[0].row else rest
  }

  /** Math.max over the columns of a non-empty list. */
  function MaxCol(s: seq<Cell>): int
    requires |s| > 0
  {
    if |s| == 1 then s[0].col
    else
      var rest := MaxCol(s[1..]);
      if s[0].col >= rest then s[0].col else rest
  }

  /** `MinRow` is a lower bound attained by some cell. */
  lemma {:induction false} MinRowBound(s: seq<Cell>)
    requires |s| > 0
    ensures forall i :: 0 <= i < |s| ==> MinRow(s) <= s[i].row
    ensures exists i :: 0 <= i < |s| && MinRow(s) == s[i].row
  {
    if |s| > 1 {
      MinRowBound(s[1..]);
      assert forall i :: 1 <= i < |s| ==> s[i] == s[1..][i - 1];
      var k :| 0 <= k < |s[1..]| && MinRow(s[1..]) == s[1..][k].row;
      assert s[k + 1] == s[1..][k];
      if MinRow(s) != s[0].row {
        assert MinRow(s) == s[k + 1].row;
      }
    } else {
      assert MinRow(s) == s[0].row;
    }
  }

  /** `MinCol` is a lower bound attained by some cell. */
  lemma {:induction false} MinColBound(s: seq<Cell>)
    requires |s| > 0
    ensures forall i :: 0 <= i < |s| ==> MinCol(s) <= s[i].col
    ensures exists i :: 0 <= i < |s| && MinCol(s) == s[i].col
  {
    if |s| > 1 {
      MinColBound(s[1..]);
      assert forall i :: 1 <= i < |s| ==> s[i] == s[1..][i - 1];
      var k :| 0 <= k < |s[1..]| && MinCol(s[1..]) == s[1..][k].col;
      assert s[k + 1] == s[1..][k];
      if MinCol(s) != s[0].col {
        assert MinCol(s) == s[k + 1].col;
      }
    } else {
      assert MinCol(s) == s[0].col;
    }
  }

  /** `MaxRow` is a upper bound attained by some cell. */
  lemma {:induction false} MaxRowBound(s: seq<Cell>)
    requires |s| > 0
    ensures forall i :: 0 <= i < |s| ==> s[i].row <= MaxRow(s)
    ensures exists i :: 0 <= i < |s| && MaxRow(s) == s[i].row
  {
    if |s| > 1 {
      MaxRowBound(s[1..]);
      assert forall i :: 1 <= i < |s| ==> s[i] == s[1..][i - 1];
      var k :| 0 <= k < |s[1..]| && MaxRow(s[1..]) == s[1..][k].row;
      assert s[k + 1] == s[1..][k];
      if MaxRow(s) != s[0].row {
        assert MaxRow(s) == s[k + 1].row;
      }
    } else {
      assert MaxRow(s) == s[0].row;
    }
  }

  /** `MaxCol` is a upper bound attained by some cell. */
  lemma {:induction false} MaxColBound(s: seq<Cell>)
    requires |s| > 0
    ensures forall i :: 0 <= i < |s| ==> s[i].col <= MaxCol(s)
    ensures exists i :: 0 <= i < |s| && MaxCol(s) == s[i].col
  {
    if |s| > 1 {
      MaxColBound(s[1..]);
      assert forall i :: 1 <= i < |s| ==> s[i] == s[1..][i - 1];
      var k :| 0 <= k < |s[1..]| && MaxCol(s[1..]) == s[1..][k].col;
      assert s[k + 1] == s[1..][k];
      if MaxCol(s) != s[0].col {
        assert MaxCol(s) == s[k + 1].col;
      }
    } else {
      assert MaxCol(s) == s[0].col;
    }
  }

  /** Shift a non-empty list so that its minimum row and minimum column are 0. */
  function Normalize(s: seq<Cell>): (r: seq<Cell>)
    requires |s| > 0
    ensures |r| == |s|
  {
    Translate(s, -MinRow(s), -MinCol(s))
  }

  /** A normalised list has minimum row and minimum column 0. */
  lemma {:induction false} NormalizeAtOrigin(s: seq<Cell>)
    requires |s| > 0
    ensures MinRow(Normalize(s)) == 0 && MinCol(Normalize(s)) == 0
  {
    MinRowTranslate(s, -MinRow(s), -MinCol(s));
    MinColTranslate(s, -MinRow(s), -MinCol(s));
  }

  lemma {:induction false} MinRowTranslate(s: seq<Cell>, dr: int, dc: int)
    requires |s| > 0
    ensures MinRow(Translate(s, dr, dc)) == MinRow(s) + dr
  {
    var t := Translate(s, dr, dc);
    MinRowBound(s);
    MinRowBound(t);
    var i :| 0 <= i < |s| && MinRow(s) == s[i].row;
    var j :| 0 <= j < |t| && MinRow(t) == t[j].row;
    assert MinRow(t) <= t[i].row;
    assert MinRow(s) <= s[j].row;
  }

  lemma {:induction false} MinColTranslate(s: seq<Cell>, dr: int, dc: int)
    requires |s| > 0
    ensures MinCol(Translate(s, dr, dc)) == MinCol(s) + dc
  {
    var t := Translate(s, dr, dc);
    MinColBound(s);
    MinColBound(t);
    var i :| 0 <= i < |s| && MinCol(s) == s[i].col;
    var j :| 0 <= j < |t| && MinCol(t) == t[j].col;
    assert MinCol(t) <= t[i].col;
    assert MinCol(s) <= s[j].col;
  }

  lemma {:induction false} TranslateTwice(s: seq<Cell>, a: int, b: int, c: int, d: int)
    ensures Translate(Translate(s, a, b), c, d) == Translate(s, a + c, b + d)
  {
    var l := Translate(Translate(s, a, b), c, d);
    var r := Translate(s, a + c, b + d);
    assert |l| == |r|;
    forall i | 0 <= i < |s| ensures l[i] == r[i] {
      assert Translate(s, a, b)[i] == Cell(s[i].row + a, s[i].col + b);
    }
  }

  lemma {:induction false} TranslateAppend(a: seq<Cell>, b: seq<Cell>, dr: int, dc: int)
    ensures Translate(a + b, dr, dc) == Translate(a, dr, dc) + Translate(b, dr, dc)
  {
    var l, r := Translate(a + b, dr, dc), Translate(a, dr, dc) + Translate(b, dr, dc);
    assert |l| == |r|;
    forall i | 0 <= i < |l| ensures l[i] == r[i] {
      if i < |a| { assert (a + b)[i] == a[i]; } else { assert (a + b)[i] == b[i - |a|]; }
    }
  }

  /** Normalisation forgets any common shift: the heart of translation invariance. */
  lemma {:induction false} NormalizeTranslate(s: seq<Cell>, dr: int, dc: int)
    requires |s| > 0
    ensures Normalize(Translate(s, dr, dc)) == Normalize(s)
  {
    var t := Translate(s, dr, dc);
    MinRowTranslate(s, dr, dc);
    MinColTranslate(s, dr, dc);
    var a, b := Normalize(t), Normalize(s);
    forall i | 0 <= i < |s| ensures a[i] == b[i] {
      assert t[i] == Cell(s[i].row + dr, s[i].col + dc);
    }
    assert |a| == |b|;
  }

  /** The row-major order of the comparator `a[0] - b[0] || a[1] - b[1]`. */
  predicate RowMajorLe(a: Cell, b: Cell)
  {
    a.row < b.row || (a.row == b.row && a.col <= b.col)
  }

  predicate SortedRowMajor(s: seq<Cell>)
  {
    forall i, j :: 0 <= i < j < |s| ==> RowMajorLe(s[i], s[j])
  }

  /** Insert `x` before the first element it does not follow in row-major order. */
  function Insert(x: Cell, s: seq<Cell>): seq<Cell>
  {
    if s == [] || RowMajorLe(x, s[0]) then [x] + s else [s[0]] + Insert(x, s[1..])
  }

  /** The row-major sort `.sort((a, b) => a[0] - b[0] || a[1] - b[1])`, as an
      insertion sort. */
  function SortCells(s: seq<Cell>): seq<Cell>
  {
    if s == [] then [] else Insert(s[0], SortCells(s[1..]))
  }

  /** Every element of `s` follows `y`. */
  predicate AllFollow(y: Cell, s: seq<Cell>)
  {
    forall i :: 0 <= i < |s| ==> RowMajorLe(y, s[i])
  }

  lemma {:induction false} ConsSorted(h: Cell, t: seq<Cell>)
    requires SortedRowMajor(t) && AllFollow(h, t)
    ensures SortedRowMajor([h] + t)
  {
    forall i, j | 0 <= i < j < |[h] + t| ensures RowMajorLe(([h] + t)[i], ([h] + t)[j]) {
      if i > 0 {
        assert ([h] + t)[i] == t[i - 1];
      }
      assert ([h] + t)[j] == t[j - 1];
    }
  }

  lemma {:induction false} SortedTail(s: seq<Cell>)
    requires SortedRowMajor(s) && |s| > 0
    ensures SortedRowMajor(s[1..]) && AllFollow(s[0], s[1..])
  {
    forall i, j | 0 <= i < j < |s[1..]| ensures RowMajorLe(s[1..][i], s[1..][j]) {
      assert s[1..][i] == s[i + 1] && s[1..][j] == s[j + 1];
    }
    forall i | 0 <= i < |s[1..]| ensures RowMajorLe(s[0], s[1..][i]) {
      assert s[1..][i] == s[i + 1];
    }
  }

  /** A lower bound of `x` and of all of `s` is a lower bound of `Insert(x, s)`. */
  lemma {:induction false} InsertFollows(x: Cell, s: seq<Cell>, y: Cell)
    requires RowMajorLe(y, x) && AllFollow(y, s)
    ensures AllFollow(y, Insert(x, s))
  {
    if s != [] && !RowMajorLe(x, s[0]) {
      assert AllFollow(y, s[1..]) by {
        forall i | 0 <= i < |s[1..]| ensures RowMajorLe(y, s[1..][i]) { assert s[1..][i] == s[i + 1]; }
      }
      InsertFollows(x, s[1..], y);
      var t := Insert(x, s[1..]);
      forall i | 0 <= i < |[s[0]] + t| ensures RowMajorLe(y, ([s[0]] + t)[i]) {
        if i > 0 { assert ([s[0]] + t)[i] == t[i - 1]; }
      }
    } else {
      forall i | 0 <= i < |[x] + s| ensures RowMajorLe(y, ([x] + s)[i]) {
        if i > 0 { assert ([x] + s)[i] == s[i - 1]; }
      }
    }
  }

  lemma {:induction false} InsertCells(x: Cell, s: seq<Cell>)
    ensures multiset(Insert(x, s)) == multiset(s) + multiset{x}
    ensures |Insert(x, s)| == |s| + 1
  {
    if s != [] && !RowMajorLe(x, s[0]) {
      InsertCells(x, s[1..]);
      assert s == [s[0]] + s[1..];
    }
  }

  lemma {:induction false} InsertSorted(x: Cell, s: seq<Cell>)
    requires SortedRowMajor(s)
    ensures SortedRowMajor(Insert(x, s))
    ensures multiset(Insert(x, s)) == multiset(s) + multiset{x}
    ensures |Insert(x, s)| == |s| + 1
  {
    InsertCells(x, s);
    if s == [] || RowMajorLe(x, s[0]) {
      if s != [] {
        SortedTail(s);
        assert AllFollow(x, s) by {
          forall i | 0 <= i < |s| ensures RowMajorLe(x, s[i]) {
            if i > 0 { assert RowMajorLe(s[0], s[1..][i - 1]); }
          }
        }
      }
      ConsSorted(x, s);
    } else {
      SortedTail(s);
      InsertSorted(x, s[1..]);
      InsertFollows(x, s[1..], s[0]);
      ConsSorted(s[0], Insert(x, s[1..]));
    }
  }

  /** The sort returns a row-major sorted permutation of its input. */
  lemma {:induction false} SortCellsSorted(s: seq<Cell>)
    ensures SortedRowMajor(SortCells(s))
    ensures multiset(SortCells(s)) == multiset(s)
    ensures |SortCells(s)| == |s|
  {
    if s != [] {
      SortCellsSorted(s[1..]);
      InsertSorted(s[0], SortCells(s[1..]));
      assert s == [s[0]] + s[1..];
    }
  }

  /** The head of a sorted list precedes each of its cells. */
  lemma {:induction false} SortedHeadFirst(s: seq<Cell>, x: Cell)
    requires SortedRowMajor(s) && x in multiset(s)
    ensures RowMajorLe(s[0], x)
  {
    var j :| 0 <= j < |s| && s[j] == x;
    if j > 0 { assert RowMajorLe(s[0], s[j]); }
  }

  lemma {:induction false} MultisetTail(s: seq<Cell>)
    requires |s| > 0
    ensures multiset(s[1..]) == multiset(s) - multiset{s[0]}
  {
    assert s == [s[0]] + s[1..];
  }

  /** Row-major order is total and antisymmetric, so a sorted list is fixed by
      its multiset of cells. */
  lemma {:induction false} SortedPermutationUnique(a: seq<Cell>, b: seq<Cell>)
    requires SortedRowMajor(a) && SortedRowMajor(b)
    requires multiset(a) == multiset(b)
    ensures a == b
    decreases |a|
  {
    assert |a| == |multiset(a)| == |multiset(b)| == |b|;
    if a != [] {
      SortedHeadFirst(b, a[0]);
      SortedHeadFirst(a, b[0]);
      assert a[0] == b[0];
      MultisetTail(a);
      MultisetTail(b);
      SortedTail(a);
      SortedTail(b);
      SortedPermutationUnique(a[1..], b[1..]);
      assert a == [a[0]] + a[1..] && b == [b[0]] + b[1..];
    }
  }
  /** Sorting gives `t` whenever `t` is sorted and holds the same cells. */
  lemma {:induction false} SortCellsIs(s: seq<Cell>, t: seq<Cell>)
    requires SortedRowMajor(t) && multiset(s) == multiset(t)
    ensures SortCells(s) == t
  {
    SortCellsSorted(s);
    SortedPermutationUnique(SortCells(s), t);
  }

  lemma {:induction false} TranslateZero(s: seq<Cell>)
    ensures Translate(s, 0, 0) == s
  {
  }

  /** De-duplicating a list without repeats returns it unchanged. */
  lemma {:induction false} DedupDistinct(s: seq<Cell>)
    requires Distinct(s)
    ensures Dedup(s) == s
  {
    if s != [] {
      var n := |s| - 1;
      assert Distinct(s[..n]);
      DedupDistinct(s[..n]);
      assert s[n] !in s[..n];
      assert s == s[..n] + [s[n]];
    }
  }

  /** Keeps the first occurrence of every cell, in order: the values of a Map
      filled by `set("row:col", cell)`, since re-setting a key keeps its place. */
  function Dedup(s: seq<Cell>): (r: seq<Cell>)
    ensures Distinct(r)
    ensures forall c :: c in r <==> c in s
    ensures |r| <= |s|
  {
    if s == [] then []
    else
      var n := |s| - 1;
      var d := Dedup(s[..n]);
      assert s == s[..n] + [s[n]];
      if s[n] in d then d else d + [s[n]]
  }

  lemma {:induction false} TranslateMember(s: seq<Cell>, x: Cell, dr: int, dc: int)
    ensures Cell(x.row + dr, x.col + dc) in Translate(s, dr, dc) <==> x in s
  {
    var t := Translate(s, dr, dc);
    if x in s {
      var k :| 0 <= k < |s| && s[k] == x;
      assert t[k] == Cell(x.row + dr, x.col + dc);
    }
    if Cell(x.row + dr, x.col + dc) in t {
      var k :| 0 <= k < |t| && t[k] == Cell(x.row + dr, x.col + dc);
      assert s[k] == x;
    }
  }

  lemma {:induction false} TranslateSnoc(s: seq<Cell>, x: Cell, dr: int, dc: int)
    ensures Translate(s + [x], dr, dc) == Translate(s, dr, dc) + [Cell(x.row + dr, x.col + dc)]
  {
    var l := Translate(s + [x], dr, dc);
    var r := Translate(s, dr, dc) + [Cell(x.row + dr, x.col + dc)];
    assert |l| == |r|;
    forall i | 0 <= i < |l| ensures l[i] == r[i] {
      if i < |s| { assert (s + [x])[i] == s[i]; }
    }
  }

  /** Shifting commutes with de-duplication (the shift is injective). */
  lemma {:induction false} DedupTranslate(s: seq<Cell>, dr: int, dc: int)
    ensures Dedup(Translate(s, dr, dc)) == Translate(Dedup(s), dr, dc)
  {
    if s != [] {
      var n := |s| - 1;
      var t := Translate(s, dr, dc);
      var x := Cell(s[n].row + dr, s[n].col + dc);
      assert t[n] == x;
      assert t[..n] == Translate(s[..n], dr, dc);
      DedupTranslate(s[..n], dr, dc);
      var d := Dedup(s[..n]);
      var td := Dedup(t[..n]);
      assert td == Translate(d, dr, dc);
      TranslateMember(d, s[n], dr, dc);
      if s[n] in d {
        assert Dedup(s) == d;
        assert Dedup(t) == td;
      } else {
        assert Dedup(s) == d + [s[n]];
        assert Dedup(t) == td + [x];
        TranslateSnoc(d, s[n], dr, dc);
      }
    }
  }

  /** The number of distinct cells in a list. */
  lemma {:induction false} DedupSize(s: seq<Cell>)
    ensures |Dedup(s)| == |set c | c in s|
  {
    var d := Dedup(s);
    DistinctCard(d);
    assert (set c | c in d) == (set c | c in s);
  }

  lemma {:induction false} DistinctCard(s: seq<Cell>)
    requires Distinct(s)
    ensures |set c | c in s| == |s|
  {
    if s != [] {
      var n := |s| - 1;
      DistinctCard(s[..n]);
      assert (set c | c in s) == (set c | c in s[..n]) + {s[n]};
      assert s[n] !in s[..n];
    }
  }

  lemma {:induction false} SetCardAtMostLength(s: seq<Cell>)
    ensures |set c | c in s| <= |s|
  {
    if s != [] {
      var n := |s| - 1;
      SetCardAtMostLength(s[..n]);
      assert (set c | c in s) == (set c | c in s[..n]) + {s[n]};
    }
  }

  /** Every row and column is non-negative. */
  predicate NonNegative(s: seq<Cell>)
  {
    forall i :: 0 <= i < |s| ==> 0 <= s[i].row && 0 <= s[i].col
  }

  /** A shape as stored for comparison: non-empty, at the origin and sorted row-major. */
  predicate CanonicalShape(p: seq<Cell>)
  {
    |p| > 0 && SortedRowMajor(p) && MinRow(p) == 0 && MinCol(p) == 0
  }

  /** Lists holding the same cells have the same minimum row and column. */
  lemma {:induction false} MinSameCells(a: seq<Cell>, b: seq<Cell>)
    requires |a| > 0 && multiset(a) == multiset(b)
    ensures |b| > 0 && MinRow(a) == MinRow(b) && MinCol(a) == MinCol(b)
  {
    assert |b| == |multiset(b)| == |multiset(a)| == |a|;
    MinRowBound(a); MinRowBound(b); MinColBound(a); MinColBound(b);
    var i :| 0 <= i < |a| && MinRow(a) == a[i].row;
    assert a[i] in multiset(b);
    var i' :| 0 <= i' < |b| && b[i'] == a[i];
    var j :| 0 <= j < |b| && MinRow(b) == b[j].row;
    assert b[j] in multiset(a);
    var j' :| 0 <= j' < |a| && a[j'] == b[j];
    assert MinRow(a) <= a[j'].row && MinRow(b) <= b[i'].row;
    var k :| 0 <= k < |a| && MinCol(a) == a[k].col;
    assert a[k] in multiset(b);
    var k' :| 0 <= k' < |b| && b[k'] == a[k];
    var l :| 0 <= l < |b| && MinCol(b) == b[l].col;
    assert b[l] in multiset(a);
    var l' :| 0 <= l' < |a| && a[l'] == b[l];
    assert MinCol(a) <= a[l'].col && MinCol(b) <= b[k'].col;
  }

  /** In a list without repeats every cell occurs at most once. */
  lemma {:induction false} DistinctCounts(s: seq<Cell>)
    requires Distinct(s)
    ensures forall x :: multiset(s)[x] <= 1
  {
    if s != [] {
      var n := |s| - 1;
      assert Distinct(s[..n]);
      DistinctCounts(s[..n]);
      assert s == s[..n] + [s[n]];
      assert s[n] !in s[..n];
      assert multiset(s) == multiset(s[..n]) + multiset{s[n]};
    }
  }

  /** A cell found at two positions occurs at least twice. */
  lemma {:induction false} RepeatCount(s: seq<Cell>, i: int, j: int)
    requires 0 <= i < j < |s|
    ensures s[i] == s[j] ==> multiset(s)[s[i]] >= 2
  {
    assert s == s[..j] + [s[j]] + s[j + 1..];
    assert s[..j][i] == s[i];
    assert multiset(s) == multiset(s[..j]) + multiset{s[j]} + multiset(s[j + 1..]);
  }

  /** A list in which every cell occurs at most once has no repeats. */
  lemma {:induction false} CountsDistinct(s: seq<Cell>)
    requires forall x :: multiset(s)[x] <= 1
    ensures Distinct(s)
  {
    forall i, j | 0 <= i < j < |s| ensures s[i] != s[j] {
      RepeatCount(s, i, j);
    }
  }

  /** Rearranging a list without repeats gives a list without repeats. */
  lemma {:induction false} DistinctSameCells(a: seq<Cell>, b: seq<Cell>)
    requires Distinct(a) && multiset(a) == multiset(b)
    ensures Distinct(b)
  {
    DistinctCounts(a);
    CountsDistinct(b);
  }

  lemma {:induction false} TranslateDistinct(s: seq<Cell>, dr: int, dc: int)
    requires Distinct(s)
    ensures Distinct(Translate(s, dr, dc))
  {
    var t := Translate(s, dr, dc);
    forall i, j | 0 <= i < j < |t| ensures t[i] != t[j] {
      assert s[i] != s[j];
    }
  }

  /** Fill a Map keyed by "row:col" with the cells of `s` and return its values
      in insertion order: re-setting a key keeps its first position. */
  method UniqueCells(s: seq<Cell>) returns (unique: seq<Cell>)
    ensures unique == Dedup(s)
  {
    unique := [];
    var k := 0;
    while k < |s|
      invariant 0 <= k <= |s|
      invariant unique == Dedup(s[..k])
    {
      assert s[..k + 1][..k] == s[..k];
      if s[k] !in unique {
        unique := unique + [s[k]];
      }
      k := k + 1;
    }
    assert s[..k] == s;
  }
}
