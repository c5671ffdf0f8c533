/** The perimeter goal of goal.py: target-coloured unit cells on the outer
    boundary of the flattened board, corners counted twice. */
module Perimeter {
  import opened Blocks
  import opened Grids

  /** The number of cells of colour t in s. */
  function Hits(s: seq<Colour>, t: Colour): nat {
    if s == [] then 0
    else Hits(s[..|s| - 1], t) + (if s[|s| - 1] == t then 1 else 0)
  }

  lemma {:induction false} HitsAppend(a: seq<Colour>, b: seq<Colour>, t: Colour)
    ensures Hits(a + b, t) == Hits(a, t) + Hits(b, t)
    decreases |b|
  {
    if b != [] {
      HitsAppend(a, b[..|b| - 1], t);
      assert (a + b)[..|a + b| - 1] == a + b[..|b| - 1];
    } else {
      assert a + b == a;
    }
  }

  /** Row r of g, read from left to right. */
  function Row(g: Grid, r: nat): (row: Column)
    requires forall c :: 0 <= c < |g| ==> r < |g[c]|
    ensures |row| == |g| && forall c :: 0 <= c < |g| ==> row[c] == g[c][r]
  {
    seq(|g|, c requires 0 <= c < |g| => g[c][r])
  }

  /** The perimeter score as the game describes it: walk each of the four
      sides of the board and count the cells of colour t on it. A corner
      lies on two sides and counts twice; the single cell of a 1x1 board
      lies on all four sides and counts four times. */
  function SideHits(g: Grid, t: Colour): nat
    requires |g| >= 1 && IsSquare(g, |g|)
  {
    var n := |g|;
    Hits(g[0], t) + Hits(g[n - 1], t) + Hits(Row(g, 0), t) + Hits(Row(g, n - 1), t)
  }

  lemma {:induction false} HitsAtMost(s: seq<Colour>, t: Colour)
    ensures Hits(s, t) <= |s|
  {
    if s != [] {
      HitsAtMost(s[..|s| - 1], t);
    }
  }

  /** Hits of a sequence split into its first cell, its middle and its last
      cell. */
  lemma HitsEnds(s: seq<Colour>, t: Colour)
    requires |s| >= 2
    ensures Hits(s, t) == Hits([s[0]], t) + Hits(s[1..|s| - 1], t) + Hits([s[|s| - 1]], t)
  {
    assert s == [s[0]] + s[1..|s| - 1] + [s[|s| - 1]];
    HitsAppend([s[0]] + s[1..|s| - 1], [s[|s| - 1]], t);
    HitsAppend([s[0]], s[1..|s| - 1], t);
  }

  /** The helper _boundary_score: the score of one boundary column, whose
      first and last cells count twice. */
  method BoundaryScore(col: Column, t: Colour) returns (score: int)
    requires |col| >= 1
    ensures |col| == 1 ==> score == 4 * Hits(col, t)
    ensures |col| >= 2 ==> score == Hits(col, t) + Hits([col[0]], t) + Hits([col[|col| - 1]], t)
  {
    score := 0;
    if col[0] == t {
      score := score + 2;
    }
    if col[|col| - 1] == t {
      score := score + 2;
    }
    if |col| > 2 {
      for i := 1 to |col| - 1
        invariant score == 2 * Hits([col[0]], t) + 2 * Hits([col[|col| - 1]], t) + Hits(col[1..i], t)
      {
        assert col[1..i + 1] == col[1..i] + [col[i]];
        if col[i] == t {
          score := score + 1;
        }
      }
    }
    if |col| == 1 {
      assert col == [col[0]];
    } else {
      HitsEnds(col, t);
      if |col| == 2 {
        assert col[1..|col| - 1] == [];
      }
    }
  }

  /** PerimeterGoal.score: flattens the board, then adds the two boundary
      columns and the top and bottom cells of every column strictly between
      them. The result is the four-sides count of the flattened board. */
  method PerimeterScore(t: Colour, board: Block) returns (score: int)
    requires WellFormed(board)
    ensures score == SideHits(Flatten(board), t)
  {
    var g := Flatten(board);
    score := GridPerimeterScore(t, g);
  }

  /** The counting part of PerimeterGoal.score, on the flattened grid. */
  method GridPerimeterScore(t: Colour, g: Grid) returns (score: int)
    requires |g| >= 1 && IsSquare(g, |g|)
    ensures score == SideHits(g, t)
  {
    var n := |g|;
    if n == 1 {
      score := BoundaryScore(g[0], t);
      assert Row(g, 0) == g[0] by {
        assert g[0] == [g[0][0]];
      }
      return;
    }
    var count := MiddleScore(t, g);
    var left := BoundaryScore(g[0], t);
    var right := BoundaryScore(g[n - 1], t);
    score := count + left + right;
    PerimeterParts(g, t);
  }

  /** The loop of PerimeterGoal.score over the columns strictly between the
      two boundary columns: their top and bottom cells of colour t. */
  method MiddleScore(t: Colour, g: Grid) returns (count: int)
    requires |g| >= 2 && IsSquare(g, |g|)
    ensures count == Hits(Row(g, 0)[1..|g| - 1], t) + Hits(Row(g, |g| - 1)[1..|g| - 1], t)
  {
    var n := |g|;
    count := 0;
    ghost var top, bottom := Row(g, 0), Row(g, n - 1);
    if n > 2 {
      for i := 1 to n - 1
        invariant count == Hits(top[1..i], t) + Hits(bottom[1..i], t)
      {
        assert top[1..i + 1] == top[1..i] + [g[i][0]];
        assert bottom[1..i + 1] == bottom[1..i] + [g[i][n - 1]];
        if g[i][0] == t {
          count := count + 1;
        }
        if g[i][|g[i]| - 1] == t {
          count := count + 1;
        }
      }
    }
  }

  /** For a board of side at least 2, the four-sides count splits into the
      two boundary columns (ends counted twice) and the top and bottom cells
      of the columns strictly between them. */
  lemma PerimeterParts(g: Grid, t: Colour)
    requires |g| >= 2 && IsSquare(g, |g|)
    ensures var n := |g|;
      SideHits(g, t) ==
        Hits(Row(g, 0)[1..n - 1], t) + Hits(Row(g, n - 1)[1..n - 1], t) +
        (Hits(g[0], t) + Hits([g[0][0]], t) + Hits([g[0][n - 1]], t)) +
        (Hits(g[n - 1], t) + Hits([g[n - 1][0]], t) + Hits([g[n - 1][n - 1]], t))
  {
    var n := |g|;
    HitsEnds(Row(g, 0), t);
    HitsEnds(Row(g, n - 1), t);
  }

  /** The score lies between 0 and four times the side of the board. */
  lemma SideHitsBounds(g: Grid, t: Colour)
    requires |g| >= 1 && IsSquare(g, |g|)
    ensures 0 <= SideHits(g, t) <= 4 * |g|
  {
    var n := |g|;
    HitsAtMost(g[0], t);
    HitsAtMost(g[n - 1], t);
    HitsAtMost(Row(g, 0), t);
    HitsAtMost(Row(g, n - 1), t);
  }

  /** A single-cell board scores 4 when its cell has the target colour and
      0 otherwise. */
  lemma SideHitsOneCell(g: Grid, t: Colour)
    requires |g| == 1 && IsSquare(g, 1)
    ensures SideHits(g, t) == if g[0][0] == t then 4 else 0
  {
    assert g[0] == [g[0][0]];
    assert Row(g, 0) == [g[0][0]];
    assert Hits([g[0][0]], t) == Hits([], t) + (if g[0][0] == t then 1 else 0);
  }
}
