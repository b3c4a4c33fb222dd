/** components/game/partB/constants.ts: the two piece shapes, the rotation
    angles and the generator of the four normalised rotations of the 9-cell
    "W" template. */
module PartBConstants {
  import opened Cells

  const BLOCK_DIMENSION: int := 3
  const BLOCK_CENTER_OFFSET: int := BLOCK_DIMENSION / 2

  /** The two piece types: right-facing and left-facing block. */
  datatype BlockType = RFB | LFB

  /** A piece rotation in degrees. */
  type Rotation = r: int | r == 0 || r == 90 || r == 180 || r == 270

  const ROTATIONS: seq<Rotation> := [0, 90, 180, 270]

  /** Every cell lies in the BLOCK_DIMENSION x BLOCK_DIMENSION box at the origin. */
  predicate InBlockBox(s: seq<Cell>)
  {
    forall i :: 0 <= i < |s| ==> 0 <= s[i].row < BLOCK_DIMENSION && 0 <= s[i].col < BLOCK_DIMENSION
  }

  /** BLOCK_SHAPES: the unrotated offsets of each piece type. */
  function BlockShape(t: BlockType): (s: seq<Cell>)
    ensures |s| == (if t == RFB then 4 else 5)
    ensures Distinct(s) && InBlockBox(s)
  {
    match t
    case RFB => [Cell(0, 0), Cell(1, 0), Cell(2, 0), Cell(2, 1)]
    case LFB => [Cell(0, 2), Cell(1, 2), Cell(2, 2), Cell(2, 0), Cell(2, 1)]
  }

  /** The W template: the RFB cells followed by an LFB placed to form a W. */
  const W_BASE: seq<Cell> :=
    [Cell(0, 0), Cell(1, 0), Cell(2, 0), Cell(2, 1),
     Cell(2, 2), Cell(3, 2), Cell(4, 2), Cell(4, 3), Cell(4, 4)]

  /** The template has nine distinct cells with non-negative coordinates, and
      its first four cells are the RFB shape. */
  lemma BaseTemplate()
    ensures |W_BASE| == 9 && Distinct(W_BASE) && NonNegative(W_BASE)
    ensures W_BASE[..4] == BlockShape(RFB)
  {
  }

  /** (row, col) -> (col, size - 1 - row) applied to every cell, in order. */
  function QuarterTurn(cur: seq<Cell>, size: int): (r: seq<Cell>)
    ensures |r| == |cur|
  {
    if cur == [] then [] else [Cell(cur[0].col, size - 1 - cur[0].row)] + QuarterTurn(cur[1..], size)
  }

  /** The size of the square bounding box the generator rotates in:
      max(maxRow, maxCol) + 1. */
  function BoxSize(cur: seq<Cell>): int
    requires |cur| > 0
  {
    (if MaxRow(cur) >= MaxCol(cur) then MaxRow(cur) else MaxCol(cur)) + 1
  }

  /** The generator's rotation step inside the bounding box of `cur`. */
  function RotateInBox(cur: seq<Cell>): (r: seq<Cell>)
    requires |cur| > 0
    ensures |r| == |cur|
  {
    QuarterTurn(cur, BoxSize(cur))
  }

  /** The normalised, row-major sorted form of a shape, as the generator stores it. */
  function Canonical(cur: seq<Cell>): seq<Cell>
    requires |cur| > 0
  {
    SortCells(Normalize(cur))
  }

  /** The generator loop from iteration `i` on, with `patterns` collected so far:
      store the canonical form if it is new, then (before the last iteration) rotate. */
  function PatternsFrom(cur: seq<Cell>, i: nat, patterns: seq<seq<Cell>>): seq<seq<Cell>>
    requires |cur| > 0
    decreases 4 - i
  {
    if i >= 4 then patterns
    else
      var n := Canonical(cur);
      var next := if i < 3 then RotateInBox(cur) else cur;
      PatternsFrom(next, i + 1, if n in patterns then patterns else patterns + [n])
  }

  /** The value `generateWPatterns()` computes, as the generator loop defines it. */
  function WPatterns(): seq<seq<Cell>>
  {
    assert |Dedup(W_BASE)| > 0 by { assert W_BASE[0] in W_BASE; }
    PatternsFrom(Dedup(W_BASE), 0, [])
  }

  /** The stored form is canonical and holds the normalised cells. */
  lemma {:induction false} CanonicalForm(cur: seq<Cell>)
    requires |cur| > 0
    ensures CanonicalShape(Canonical(cur))
    ensures multiset(Canonical(cur)) == multiset(Normalize(cur))
    ensures |Canonical(cur)| == |cur|
  {
    var n := Normalize(cur);
    SortCellsSorted(n);
    NormalizeAtOrigin(cur);
    MinSameCells(n, SortCells(n));
  }

  /** The stored form of a shape without repeated cells has none either. */
  lemma {:induction false} CanonicalDistinct(cur: seq<Cell>)
    requires |cur| > 0 && Distinct(cur)
    ensures Distinct(Canonical(cur))
  {
    var n := Normalize(cur);
    SortCellsSorted(n);
    TranslateDistinct(cur, -MinRow(cur), -MinCol(cur));
    DistinctSameCells(n, SortCells(n));
  }

  /** The generator's turn is injective and keeps non-negative coordinates
      non-negative, so the shape keeps its number of distinct cells. */
  lemma {:induction false} RotateInBoxKeepsCells(cur: seq<Cell>)
    requires |cur| > 0 && NonNegative(cur)
    ensures NonNegative(RotateInBox(cur))
    ensures Distinct(cur) ==> Distinct(RotateInBox(cur))
  {
    var size := BoxSize(cur);
    var r := RotateInBox(cur);
    forall i | 0 <= i < |r| ensures r[i] == Cell(cur[i].col, size - 1 - cur[i].row) && 0 <= r[i].row && 0 <= r[i].col {
      QuarterTurnAt(cur, size, i);
      MaxRowBound(cur);
    }
    if Distinct(cur) {
      forall i, j | 0 <= i < j < |r| ensures r[i] != r[j] {
        assert cur[i] != cur[j];
      }
    }
  }

  /** No pattern is stored twice. */
  predicate DistinctPatterns(ps: seq<seq<Cell>>)
  {
    forall i, j :: 0 <= i < j < |ps| ==> ps[i] != ps[j]
  }

  /** Every stored pattern is canonical and has `n` distinct cells. */
  predicate ShapesOf(ps: seq<seq<Cell>>, n: int)
  {
    forall k :: 0 <= k < |ps| ==> CanonicalShape(ps[k]) && |ps[k]| == n && Distinct(ps[k])
  }

  /** The generator only appends, never stores a pattern twice, stores at most
      one pattern per remaining iteration, and every stored pattern is a
      canonical shape with as many distinct cells as the template. */
  lemma {:induction false} PatternsFromProps(cur: seq<Cell>, i: nat, patterns: seq<seq<Cell>>)
    requires |cur| > 0 && NonNegative(cur) && Distinct(cur)
    requires DistinctPatterns(patterns) && ShapesOf(patterns, |cur|)
    ensures patterns <= PatternsFrom(cur, i, patterns)
    ensures |PatternsFrom(cur, i, patterns)| <= |patterns| + (if i < 4 then 4 - i else 0)
    ensures DistinctPatterns(PatternsFrom(cur, i, patterns))
    ensures ShapesOf(PatternsFrom(cur, i, patterns), |cur|)
    decreases 4 - i
  {
    if i < 4 {
      var n := Canonical(cur);
      var next := if i < 3 then RotateInBox(cur) else cur;
      IterationStep(cur, i, patterns);
      RotateInBoxKeepsCells(cur);
      var ps := StoreIfNew(patterns, n, cur);
      PatternsFromProps(next, i + 1, ps);
    }
  }

  /** Storing the canonical form of `cur` when it is new keeps the stored
      patterns different from each other and canonical. */
  lemma {:induction false} StoreIfNew(patterns: seq<seq<Cell>>, n: seq<Cell>, cur: seq<Cell>) returns (ps: seq<seq<Cell>>)
    requires |cur| > 0 && Distinct(cur) && n == Canonical(cur)
    requires DistinctPatterns(patterns) && ShapesOf(patterns, |cur|)
    ensures ps == if n in patterns then patterns else patterns + [n]
    ensures DistinctPatterns(ps) && ShapesOf(ps, |cur|)
  {
    CanonicalForm(cur);
    CanonicalDistinct(cur);
    ps := if n in patterns then patterns else patterns + [n];
    if n !in patterns {
      forall a, b | 0 <= a < b < |ps| ensures ps[a] != ps[b] {
        if b == |patterns| { assert ps[a] == patterns[a]; }
      }
      forall k | 0 <= k < |ps| ensures CanonicalShape(ps[k]) && |ps[k]| == |cur| && Distinct(ps[k]) {
        if k < |patterns| { assert ps[k] == patterns[k]; }
      }
    }
  }

  /** The generator run on any template without repeated cells and with
      non-negative coordinates. */
  lemma {:induction false} TemplatePatterns(t: seq<Cell>)
    requires |t| > 0 && NonNegative(t) && Distinct(t)
    ensures |PatternsFrom(t, 0, [])| <= 4
    ensures DistinctPatterns(PatternsFrom(t, 0, []))
    ensures ShapesOf(PatternsFrom(t, 0, []), |t|)
  {
    PatternsFromProps(t, 0, []);
  }

  /** W_PATTERNS holds at most four pairwise different patterns, each a canonical
      shape of nine distinct cells. */
  lemma WPatternsShape()
    ensures |WPatterns()| <= 4
    ensures DistinctPatterns(WPatterns())
    ensures ShapesOf(WPatterns(), 9)
  {
    BaseTemplate();
    D0();
    TemplatePatterns(W_BASE);
  }

  // The three quarter turns of W_BASE as the generator's loop produces them (the
  // template fills the 5x5 box, so every turn stays inside it at the origin).
  const W_TURN1: seq<Cell> :=
    [Cell(0, 4), Cell(0, 3), Cell(0, 2), Cell(1, 2), Cell(2, 2), Cell(2, 1), Cell(2, 0), Cell(3, 0), Cell(4, 0)]
  const W_TURN2: seq<Cell> :=
    [Cell(4, 4), Cell(3, 4), Cell(2, 4), Cell(2, 3), Cell(2, 2), Cell(1, 2), Cell(0, 2), Cell(0, 1), Cell(0, 0)]
  const W_TURN3: seq<Cell> :=
    [Cell(4, 0), Cell(4, 1), Cell(4, 2), Cell(3, 2), Cell(2, 2), Cell(2, 3), Cell(2, 4), Cell(1, 4), Cell(0, 4)]

  /** Element i of a quarter turn is the turned element i. */
  lemma {:induction false} QuarterTurnAt(cur: seq<Cell>, size: int, i: int)
    requires 0 <= i < |cur|
    ensures QuarterTurn(cur, size)[i] == Cell(cur[i].col, size - 1 - cur[i].row)
    decreases i
  {
    if i > 0 {
      QuarterTurnAt(cur[1..], size, i - 1);
    }
  }

  /** The bounding box of a list whose rows and columns all lie in [0, 4] and reach 0 and 4. */
  lemma {:induction false} Box5(s: seq<Cell>, r0: int, r4: int, c0: int, c4: int)
    requires 0 <= r0 < |s| && 0 <= r4 < |s| && 0 <= c0 < |s| && 0 <= c4 < |s|
    requires s[r0].row == 0 && s[r4].row == 4 && s[c0].col == 0 && s[c4].col == 4
    requires forall i :: 0 <= i < |s| ==> 0 <= s[i].row <= 4 && 0 <= s[i].col <= 4
    ensures MinRow(s) == 0 && MinCol(s) == 0 && MaxRow(s) == 4 && MaxCol(s) == 4
  {
    MinRowBound(s); MinColBound(s); MaxRowBound(s); MaxColBound(s);
    assert MinRow(s) <= s[r0].row && MinCol(s) <= s[c0].col;
    assert MaxRow(s) >= s[r4].row && MaxCol(s) >= s[c4].col;
  }

  lemma BoxBase() ensures MinRow(W_BASE) == 0 && MinCol(W_BASE) == 0 && MaxRow(W_BASE) == 4 && MaxCol(W_BASE) == 4 {
    Box5(W_BASE, 0, 6, 0, 8);
  }
  lemma BoxTurn1() ensures MinRow(W_TURN1) == 0 && MinCol(W_TURN1) == 0 && MaxRow(W_TURN1) == 4 && MaxCol(W_TURN1) == 4 {
    Box5(W_TURN1, 0, 8, 6, 0);
  }
  lemma BoxTurn2() ensures MinRow(W_TURN2) == 0 && MinCol(W_TURN2) == 0 && MaxRow(W_TURN2) == 4 && MaxCol(W_TURN2) == 4 {
    Box5(W_TURN2, 6, 0, 8, 0);
  }
  lemma BoxTurn3() ensures MinRow(W_TURN3) == 0 && MinCol(W_TURN3) == 0 && MaxRow(W_TURN3) == 4 && MaxCol(W_TURN3) == 4 {
    Box5(W_TURN3, 8, 0, 0, 6);
  }
  lemma Q1() ensures QuarterTurn(W_BASE, 5) == W_TURN1 {
    var r := QuarterTurn(W_BASE, 5);
    QuarterTurnAt(W_BASE, 5, 0); QuarterTurnAt(W_BASE, 5, 1); QuarterTurnAt(W_BASE, 5, 2);
    QuarterTurnAt(W_BASE, 5, 3); QuarterTurnAt(W_BASE, 5, 4); QuarterTurnAt(W_BASE, 5, 5);
    QuarterTurnAt(W_BASE, 5, 6); QuarterTurnAt(W_BASE, 5, 7); QuarterTurnAt(W_BASE, 5, 8);
    assert r == [r[0], r[1], r[2], r[3], r[4], r[5], r[6], r[7], r[8]];
  }
  lemma Q2() ensures QuarterTurn(W_TURN1, 5) == W_TURN2 {
    var r := QuarterTurn(W_TURN1, 5);
    QuarterTurnAt(W_TURN1, 5, 0); QuarterTurnAt(W_TURN1, 5, 1); QuarterTurnAt(W_TURN1, 5, 2);
    QuarterTurnAt(W_TURN1, 5, 3); QuarterTurnAt(W_TURN1, 5, 4); QuarterTurnAt(W_TURN1, 5, 5);
    QuarterTurnAt(W_TURN1, 5, 6); QuarterTurnAt(W_TURN1, 5, 7); QuarterTurnAt(W_TURN1, 5, 8);
    assert r == [r[0], r[1], r[2], r[3], r[4], r[5], r[6], r[7], r[8]];
  }
  lemma Q3() ensures QuarterTurn(W_TURN2, 5) == W_TURN3 {
    var r := QuarterTurn(W_TURN2, 5);
    QuarterTurnAt(W_TURN2, 5, 0); QuarterTurnAt(W_TURN2, 5, 1); QuarterTurnAt(W_TURN2, 5, 2);
    QuarterTurnAt(W_TURN2, 5, 3); QuarterTurnAt(W_TURN2, 5, 4); QuarterTurnAt(W_TURN2, 5, 5);
    QuarterTurnAt(W_TURN2, 5, 6); QuarterTurnAt(W_TURN2, 5, 7); QuarterTurnAt(W_TURN2, 5, 8);
    assert r == [r[0], r[1], r[2], r[3], r[4], r[5], r[6], r[7], r[8]];
  }

  lemma {:induction false} Reverse3(x: Cell, y: Cell, z: Cell)
    ensures multiset([x, y, z]) == multiset([z, y, x])
  {
  }

  lemma {:induction false} SwapBlocks(a: seq<Cell>, b: seq<Cell>, c: seq<Cell>, d: seq<Cell>, a': seq<Cell>, c': seq<Cell>)
    requires multiset(a) == multiset(a') && multiset(c) == multiset(c')
    ensures multiset(a + b + c + d) == multiset(a' + b + c' + d)
  {
  }

  lemma {:induction false} ReversedBlocks(a: seq<Cell>, b: seq<Cell>, c: seq<Cell>, a': seq<Cell>, b': seq<Cell>, c': seq<Cell>)
    requires multiset(a) == multiset(a') && multiset(b) == multiset(b') && multiset(c) == multiset(c')
    ensures multiset(a + b + c) == multiset(c' + b' + a')
  {
  }

  lemma {:induction false} BlocksReversed(a: seq<Cell>, b: seq<Cell>, c: seq<Cell>, d: seq<Cell>, e: seq<Cell>)
    ensures multiset(a + b + c + d + e) == multiset(e + d + c + b + a)
  {
  }

  lemma SortedPattern0() ensures SortedRowMajor(W_PATTERN0) {}
  lemma SameCells0() ensures multiset(W_BASE) == multiset(W_PATTERN0) { assert W_BASE == W_PATTERN0; }
  lemma S0() ensures SortCells(W_BASE) == W_PATTERN0 { SortedPattern0(); SameCells0(); SortCellsIs(W_BASE, W_PATTERN0); }
  lemma SortedPattern1() ensures SortedRowMajor(W_PATTERN1) {}
  lemma SameCells1() ensures multiset(W_TURN1) == multiset(W_PATTERN1) {
    var a, b, c, d := [Cell(0, 4), Cell(0, 3), Cell(0, 2)], [Cell(1, 2)], [Cell(2, 2), Cell(2, 1), Cell(2, 0)], [Cell(3, 0), Cell(4, 0)];
    var a', c' := [Cell(0, 2), Cell(0, 3), Cell(0, 4)], [Cell(2, 0), Cell(2, 1), Cell(2, 2)];
    assert W_TURN1 == a + b + c + d;
    assert W_PATTERN1 == a' + b + c' + d;
    Reverse3(Cell(0, 4), Cell(0, 3), Cell(0, 2));
    Reverse3(Cell(2, 2), Cell(2, 1), Cell(2, 0));
    SwapBlocks(a, b, c, d, a', c');
  }
  lemma S1() ensures SortCells(W_TURN1) == W_PATTERN1 { SortedPattern1(); SameCells1(); SortCellsIs(W_TURN1, W_PATTERN1); }
  lemma SortedPattern2() ensures SortedRowMajor(W_PATTERN2) {}
  lemma SameCells2() ensures multiset(W_TURN2) == multiset(W_PATTERN2) {
    var a, b, c := [Cell(4, 4), Cell(3, 4), Cell(2, 4)], [Cell(2, 3), Cell(2, 2), Cell(1, 2)], [Cell(0, 2), Cell(0, 1), Cell(0, 0)];
    var a', b', c' := [Cell(2, 4), Cell(3, 4), Cell(4, 4)], [Cell(1, 2), Cell(2, 2), Cell(2, 3)], [Cell(0, 0), Cell(0, 1), Cell(0, 2)];
    assert W_TURN2 == a + b + c;
    assert W_PATTERN2 == c' + b' + a';
    Reverse3(Cell(4, 4), Cell(3, 4), Cell(2, 4));
    Reverse3(Cell(2, 3), Cell(2, 2), Cell(1, 2));
    Reverse3(Cell(0, 2), Cell(0, 1), Cell(0, 0));
    ReversedBlocks(a, b, c, a', b', c');
  }
  lemma S2() ensures SortCells(W_TURN2) == W_PATTERN2 { SortedPattern2(); SameCells2(); SortCellsIs(W_TURN2, W_PATTERN2); }
  lemma SortedPattern3() ensures SortedRowMajor(W_PATTERN3) {}
  lemma SameCells3() ensures multiset(W_TURN3) == multiset(W_PATTERN3) {
    var x, y, z := [Cell(4, 0), Cell(4, 1), Cell(4, 2)], [Cell(2, 2), Cell(2, 3), Cell(2, 4)], [Cell(1, 4)];
    assert W_TURN3 == x + [Cell(3, 2)] + y + z + [Cell(0, 4)];
    assert W_PATTERN3 == [Cell(0, 4)] + z + y + [Cell(3, 2)] + x;
    BlocksReversed(x, [Cell(3, 2)], y, z, [Cell(0, 4)]);
  }
  lemma S3() ensures SortCells(W_TURN3) == W_PATTERN3 { SortedPattern3(); SameCells3(); SortCellsIs(W_TURN3, W_PATTERN3); }
  lemma D0() ensures Dedup(W_BASE) == W_BASE { BaseTemplate(); DedupDistinct(W_BASE); }

  lemma Turn1() ensures RotateInBox(W_BASE) == W_TURN1 { BoxBase(); Q1(); }
  lemma Turn2() ensures RotateInBox(W_TURN1) == W_TURN2 { BoxTurn1(); Q2(); }
  lemma Turn3() ensures RotateInBox(W_TURN2) == W_TURN3 { BoxTurn2(); Q3(); }
  lemma C0() ensures Canonical(W_BASE) == W_PATTERN0 { BoxBase(); TranslateZero(W_BASE); S0(); }
  lemma C1() ensures Canonical(W_TURN1) == W_PATTERN1 { BoxTurn1(); TranslateZero(W_TURN1); S1(); }
  lemma C2() ensures Canonical(W_TURN2) == W_PATTERN2 { BoxTurn2(); TranslateZero(W_TURN2); S2(); }
  lemma C3() ensures Canonical(W_TURN3) == W_PATTERN3 { BoxTurn3(); TranslateZero(W_TURN3); S3(); }
  /** One iteration of the generator loop, with its canonical form and turn given. */
  lemma {:induction false} PatternsFromStep(cur: seq<Cell>, i: nat, patterns: seq<seq<Cell>>, n: seq<Cell>, next: seq<Cell>)
    requires |cur| > 0 && i < 3
    requires Canonical(cur) == n && RotateInBox(cur) == next
    ensures PatternsFrom(cur, i, patterns) == PatternsFrom(next, i + 1, if n in patterns then patterns else patterns + [n])
  {
  }

  /** The generator from iteration 2 on, when the two remaining canonical forms are new. */
  lemma {:induction false} FromIteration2(t2: seq<Cell>, t3: seq<Cell>, p0: seq<Cell>, p1: seq<Cell>, p2: seq<Cell>, p3: seq<Cell>)
    requires |t2| > 0 && RotateInBox(t2) == t3
    requires Canonical(t2) == p2 && Canonical(t3) == p3
    requires p2 != p0 && p2 != p1 && p3 != p0 && p3 != p1 && p3 != p2
    ensures PatternsFrom(t2, 2, [p0, p1]) == [p0, p1, p2, p3]
  {
    PatternsFromStep(t2, 2, [p0, p1], p2, t3);
    assert [p0, p1] + [p2] == [p0, p1, p2];
    LastStep(t3, [p0, p1, p2], p3);
    assert [p0, p1, p2] + [p3] == [p0, p1, p2, p3];
  }

  /** The generator from iteration 1 on, when the three remaining canonical forms are new. */
  lemma {:induction false} FromIteration1(t1: seq<Cell>, t2: seq<Cell>, t3: seq<Cell>,
                                          p0: seq<Cell>, p1: seq<Cell>, p2: seq<Cell>, p3: seq<Cell>)
    requires |t1| > 0 && RotateInBox(t1) == t2 && RotateInBox(t2) == t3
    requires Canonical(t1) == p1 && Canonical(t2) == p2 && Canonical(t3) == p3
    requires p1 != p0 && p2 != p0 && p2 != p1 && p3 != p0 && p3 != p1 && p3 != p2
    ensures PatternsFrom(t1, 1, [p0]) == [p0, p1, p2, p3]
  {
    PatternsFromStep(t1, 1, [p0], p1, t2);
    assert [p0] + [p1] == [p0, p1];
    FromIteration2(t2, t3, p0, p1, p2, p3);
  }

  /** The generator from iteration 0 on, when each of the four canonical forms is new. */
  lemma {:induction false} FourNewPatterns(b: seq<Cell>, t1: seq<Cell>, t2: seq<Cell>, t3: seq<Cell>,
                        p0: seq<Cell>, p1: seq<Cell>, p2: seq<Cell>, p3: seq<Cell>)
    requires |b| > 0
    requires RotateInBox(b) == t1 && RotateInBox(t1) == t2 && RotateInBox(t2) == t3
    requires Canonical(b) == p0 && Canonical(t1) == p1 && Canonical(t2) == p2 && Canonical(t3) == p3
    requires p1 != p0 && p2 != p0 && p2 != p1 && p3 != p0 && p3 != p1 && p3 != p2
    ensures PatternsFrom(b, 0, []) == [p0, p1, p2, p3]
  {
    PatternsFromStep(b, 0, [], p0, t1);
    assert [] + [p0] == [p0];
    FromIteration1(t1, t2, t3, p0, p1, p2, p3);
  }

  /** The last iteration stores the canonical form if it is new and does not rotate. */
  lemma {:induction false} LastStep(cur: seq<Cell>, patterns: seq<seq<Cell>>, n: seq<Cell>)
    requires |cur| > 0 && Canonical(cur) == n
    ensures PatternsFrom(cur, 3, patterns) == if n in patterns then patterns else patterns + [n]
  {
  }

  lemma PatternsDiffer()
    ensures W_PATTERN1 != W_PATTERN0 && W_PATTERN2 != W_PATTERN0 && W_PATTERN2 != W_PATTERN1
    ensures W_PATTERN3 != W_PATTERN0 && W_PATTERN3 != W_PATTERN1 && W_PATTERN3 != W_PATTERN2
  {
    assert W_PATTERN1[0] != W_PATTERN0[0] && W_PATTERN2[1] != W_PATTERN0[1] && W_PATTERN2[0] != W_PATTERN1[0];
    assert W_PATTERN3[0] != W_PATTERN0[0] && W_PATTERN3[0] != W_PATTERN1[0] && W_PATTERN3[0] != W_PATTERN2[0];
  }

  /** For this template the generator yields exactly four patterns, one per quarter turn. */
  lemma WPatternsValue()
    ensures WPatterns() == W_PATTERNS
  {
    D0();
    Turn1(); Turn2(); Turn3();
    C0(); C1(); C2(); C3();
    PatternsDiffer();
    FourNewPatterns(W_BASE, W_TURN1, W_TURN2, W_TURN3, W_PATTERN0, W_PATTERN1, W_PATTERN2, W_PATTERN3);
  }

  /** One iteration of the generator loop. */
  lemma {:induction false} IterationStep(cur: seq<Cell>, i: nat, patterns: seq<seq<Cell>>)
    requires |cur| > 0 && i < 4
    ensures PatternsFrom(cur, i, patterns)
         == PatternsFrom(if i < 3 then RotateInBox(cur) else cur, i + 1,
                         if Canonical(cur) in patterns then patterns else patterns + [Canonical(cur)])
  {
  }

  /** The body of the generator loop: store the canonical form of `current`
      under its key if the key is new and, before the last iteration, turn
      `current` inside its bounding box. A sorted list is determined by its
      "r:c|r:c|..." key, so the set of keys is kept as the set of stored lists. */
  method GeneratorIteration(current: seq<Cell>, i: nat, patterns: seq<seq<Cell>>, seen: set<seq<Cell>>)
    returns (current': seq<Cell>, patterns': seq<seq<Cell>>, seen': set<seq<Cell>>)
    requires |current| > 0 && i < 4
    requires seen == set p | p in patterns
    ensures |current'| == |current|
    ensures current' == if i < 3 then RotateInBox(current) else current
    ensures patterns' == if Canonical(current) in patterns then patterns else patterns + [Canonical(current)]
    ensures seen' == set p | p in patterns'
    ensures PatternsFrom(current', i + 1, patterns') == PatternsFrom(current, i, patterns)
  {
    var minRow, minCol := MinRow(current), MinCol(current);
    var normalized := SortCells(Translate(current, -minRow, -minCol));
    assert normalized == Canonical(current);
    patterns', seen' := patterns, seen;
    if normalized !in seen {
      seen' := seen + {normalized};
      patterns' := patterns + [normalized];
    }
    current' := current;
    if i < 3 {
      var maxRow, maxCol := MaxRow(current), MaxCol(current);
      var size := (if maxRow >= maxCol then maxRow else maxCol) + 1;
      assert size == BoxSize(current);
      current' := QuarterTurn(current, size);
    }
    IterationStep(current, i, patterns);
  }

  /** The loop of generateWPatterns, from the de-duplicated template `start`. */
  method CollectRotations(start: seq<Cell>) returns (patterns: seq<seq<Cell>>)
    requires |start| > 0
    ensures patterns == PatternsFrom(start, 0, [])
  {
    var current := start;
    patterns := [];
    var seen: set<seq<Cell>> := {};
    for i := 0 to 4
      invariant |current| > 0
      invariant PatternsFrom(current, i, patterns) == PatternsFrom(start, 0, [])
      invariant seen == set p | p in patterns
    {
      current, patterns, seen := GeneratorIteration(current, i, patterns, seen);
    }
  }

  /** generateWPatterns: de-duplicate the template through a map keyed by cell,
      then collect its canonical quarter turns. */
  method GenerateWPatterns() returns (patterns: seq<seq<Cell>>)
    ensures patterns == WPatterns()
    ensures patterns == W_PATTERNS
  {
    var unique := UniqueCells(W_BASE);
    assert W_BASE[0] in unique;
    patterns := CollectRotations(unique);
    WPatternsValue();
  }

  /** W_PATTERNS = generateWPatterns(): the four orientations of the W, each
      normalised and row-major sorted (`WPatternsValue` proves the generator
      returns exactly this list). */
  const W_PATTERNS: seq<seq<Cell>> := [W_PATTERN0, W_PATTERN1, W_PATTERN2, W_PATTERN3]

  const W_PATTERN0: seq<Cell> :=
    [Cell(0, 0), Cell(1, 0), Cell(2, 0), Cell(2, 1), Cell(2, 2), Cell(3, 2), Cell(4, 2), Cell(4, 3), Cell(4, 4)]
  const W_PATTERN1: seq<Cell> :=
    [Cell(0, 2), Cell(0, 3), Cell(0, 4), Cell(1, 2), Cell(2, 0), Cell(2, 1), Cell(2, 2), Cell(3, 0), Cell(4, 0)]
  const W_PATTERN2: seq<Cell> :=
    [Cell(0, 0), Cell(0, 1), Cell(0, 2), Cell(1, 2), Cell(2, 2), Cell(2, 3), Cell(2, 4), Cell(3, 4), Cell(4, 4)]
  const W_PATTERN3: seq<Cell> :=
    [Cell(0, 4), Cell(1, 4), Cell(2, 2), Cell(2, 3), Cell(2, 4), Cell(3, 2), Cell(4, 0), Cell(4, 1), Cell(4, 2)]
}
