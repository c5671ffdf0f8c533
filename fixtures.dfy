/** The reference boards of the game's example tests, over four colours
    c0, c1, c2, c3 standing for the first four colours of the palette, and
    the values the tests expect on them. */
module Fixtures {
  import opened Blocks
  import opened Grids
  import opened Perimeter
  import opened Blob
  import opened Players

  function Leaf(x: int, y: int, size: int, c: Colour, level: nat, depth: nat): Block {
    Block(Point(x, y), size, Some(c), level, depth, [])
  }

  /** The top-right quadrant of board_16x16, split once more. */
  function TopRight16(c0: Colour, c1: Colour, c3: Colour): Block {
    Block(Point(375, 0), 375, None, 1, 2, [
      Leaf(563, 0, 188, c0, 2, 2), Leaf(375, 0, 188, c1, 2, 2),
      Leaf(375, 188, 188, c1, 2, 2), Leaf(563, 188, 188, c3, 2, 2)])
  }

  /** The 750-pixel board of depth 2 whose top-right quadrant is split
      again (board_16x16). */
  function Board16(c0: Colour, c1: Colour, c2: Colour, c3: Colour): Block {
    Block(Point(0, 0), 750, None, 0, 2, [
      TopRight16(c0, c1, c3), Leaf(0, 0, 375, c2, 1, 2),
      Leaf(0, 375, 375, c1, 1, 2), Leaf(375, 375, 375, c3, 1, 2)])
  }

  /** The 750-pixel board of depth 1 with four leaves (board_2x2). */
  function Board2(c0: Colour, c1: Colour, c2: Colour, c3: Colour): Block {
    Block(Point(0, 0), 750, None, 0, 1, [
      Leaf(375, 0, 375, c1, 1, 1), Leaf(0, 0, 375, c2, 1, 1),
      Leaf(0, 375, 375, c3, 1, 1), Leaf(375, 375, 375, c0, 1, 1)])
  }

  /** The expected grid of board_16x16 (flattened_board_16x16). */
  function Flat16(c0: Colour, c1: Colour, c2: Colour, c3: Colour): Grid {
    [[c2, c2, c1, c1], [c2, c2, c1, c1], [c1, c1, c3, c3], [c0, c3, c3, c3]]
  }

  lemma TopRight16Shape(c0: Colour, c1: Colour, c3: Colour)
    ensures WellFormed(TopRight16(c0, c1, c3)) && Tiles(TopRight16(c0, c1, c3))
  {
    var tr := TopRight16(c0, c1, c3);
    assert forall i :: 0 <= i < 4 ==> WellFormed(tr.children[i]) && Tiles(tr.children[i]);
  }

  lemma Board16Shape(c0: Colour, c1: Colour, c2: Colour, c3: Colour)
    ensures WellFormed(Board16(c0, c1, c2, c3)) && Tiles(Board16(c0, c1, c2, c3))
  {
    TopRight16Shape(c0, c1, c3);
    var b := Board16(c0, c1, c2, c3);
    assert forall i :: 1 <= i < 4 ==> WellFormed(b.children[i]) && Tiles(b.children[i]);
  }

  /** The grid of a leaf one level above the bottom is 2 by 2 and of a leaf
      at the bottom is 1 by 1. */
  lemma FlattenSmallLeaf(b: Block)
    requires WellFormed(b) && |b.children| == 0 && b.maxDepth - b.level <= 1
    ensures b.maxDepth - b.level == 0 ==> Flatten(b) == [[b.colour.value]]
    ensures b.maxDepth - b.level == 1 ==>
      Flatten(b) == [[b.colour.value, b.colour.value], [b.colour.value, b.colour.value]]
  {
    var c := b.colour.value;
    var g := Flatten(b);
    if b.maxDepth - b.level == 1 {
      assert Side(b) == 2;
      assert g[0] == [c, c] && g[1] == [c, c];
    } else {
      assert g[0] == [c];
    }
  }

  /** Flattening the top-right quadrant of board_16x16. */
  lemma FlattenTopRight16(c0: Colour, c1: Colour, c3: Colour)
    ensures WellFormed(TopRight16(c0, c1, c3))
    ensures Flatten(TopRight16(c0, c1, c3)) == [[c1, c1], [c0, c3]]
  {
    var tr := TopRight16(c0, c1, c3);
    TopRight16Shape(c0, c1, c3);
    FlattenSmallLeaf(tr.children[0]);
    FlattenSmallLeaf(tr.children[1]);
    FlattenSmallLeaf(tr.children[2]);
    FlattenSmallLeaf(tr.children[3]);
    var gt := Flatten(tr);
    assert gt == Combine([[c1]], [[c1]]) + Combine([[c0]], [[c3]]);
    assert gt[0] == [c1, c1] && gt[1] == [c0, c3];
  }

  /** Flattening board_16x16 gives the expected 4 by 4 grid. */
  lemma FlattenBoard16(c0: Colour, c1: Colour, c2: Colour, c3: Colour)
    ensures WellFormed(Board16(c0, c1, c2, c3))
    ensures Flatten(Board16(c0, c1, c2, c3)) == Flat16(c0, c1, c2, c3)
  {
    var b := Board16(c0, c1, c2, c3);
    Board16Shape(c0, c1, c2, c3);
    FlattenTopRight16(c0, c1, c3);
    FlattenSmallLeaf(b.children[1]);
    FlattenSmallLeaf(b.children[2]);
    FlattenSmallLeaf(b.children[3]);
    var g := Flatten(b);
    var tl := [[c2, c2], [c2, c2]];
    var bl := [[c1, c1], [c1, c1]];
    var br := [[c3, c3], [c3, c3]];
    assert g == Combine(tl, bl) + Combine([[c1, c1], [c0, c3]], br);
    assert g[0] == [c2, c2, c1, c1] && g[1] == [c2, c2, c1, c1];
    assert g[2] == [c1, c1, c3, c3] && g[3] == [c0, c3, c3, c3];
  }

  /** The number of cells of colour t in a column of four. */
  lemma HitsFour(a: Colour, b: Colour, c: Colour, d: Colour, t: Colour)
    ensures Hits([a, b, c, d], t) ==
      (if a == t then 1 else 0) + (if b == t then 1 else 0) +
      (if c == t then 1 else 0) + (if d == t then 1 else 0)
  {
    assert [a, b, c, d][..3] == [a, b, c];
    assert [a, b, c][..2] == [a, b];
    assert [a, b][..1] == [a];
    assert [a][..0] == [];
    assert Hits([a], t) == (if a == t then 1 else 0);
    assert Hits([a, b], t) == Hits([a], t) + (if b == t then 1 else 0);
    assert Hits([a, b, c], t) == Hits([a, b], t) + (if c == t then 1 else 0);
  }

  /** The perimeter scores of board_16x16: 2, 5, 4 and 5 for the four
      colours. */
  lemma PerimeterBoard16(c0: Colour, c1: Colour, c2: Colour, c3: Colour, t: Colour)
    requires c0 != c1 && c0 != c2 && c0 != c3 && c1 != c2 && c1 != c3 && c2 != c3
    ensures t == c0 ==> SideHits(Flat16(c0, c1, c2, c3), t) == 2
    ensures t == c1 ==> SideHits(Flat16(c0, c1, c2, c3), t) == 5
    ensures t == c2 ==> SideHits(Flat16(c0, c1, c2, c3), t) == 4
    ensures t == c3 ==> SideHits(Flat16(c0, c1, c2, c3), t) == 5
  {
    var g := Flat16(c0, c1, c2, c3);
    assert Row(g, 0) == [c2, c2, c1, c0];
    assert Row(g, 3) == [c1, c1, c3, c3];
    HitsFour(c2, c2, c1, c1, t);
    HitsFour(c0, c3, c3, c3, t);
    HitsFour(c2, c2, c1, c0, t);
    HitsFour(c1, c1, c3, c3, t);
  }

  /** The locator on board_16x16 at its top-left corner. */
  lemma LocateTopLeft16(c0: Colour, c1: Colour, c2: Colour, c3: Colour)
    ensures var b := Board16(c0, c1, c2, c3);
      GetBlock(b, Point(0, 0), 0) == Some(b) &&
      GetBlock(b, Point(0, 0), 1) == Some(b.children[1])
  {
    var b := Board16(c0, c1, c2, c3);
    assert GetBlock(b.children[0], Point(0, 0), 1).None?;
    FirstFoundAt(b.children, Point(0, 0), 1, 1);
  }

  /** The locator on board_16x16 at its top-right corner. */
  lemma LocateTopRight16(c0: Colour, c1: Colour, c2: Colour, c3: Colour)
    ensures var b := Board16(c0, c1, c2, c3);
      GetBlock(b, Point(749, 0), 0) == Some(b) &&
      GetBlock(b, Point(749, 0), 1) == Some(b.children[0]) &&
      GetBlock(b, Point(749, 0), 2) == Some(b.children[0].children[0])
  {
    var b := Board16(c0, c1, c2, c3);
    var tr := b.children[0];
    var p := Point(749, 0);
    FirstFoundAt(b.children, p, 1, 0);
    FirstFoundAt(tr.children, p, 2, 0);
    FirstFoundAt(b.children, p, 2, 0);
  }

  /** The locator on board_16x16 at its bottom-left corner. */
  lemma LocateBottomLeft16(c0: Colour, c1: Colour, c2: Colour, c3: Colour)
    ensures var b := Board16(c0, c1, c2, c3);
      GetBlock(b, Point(0, 749), 0) == Some(b) &&
      GetBlock(b, Point(0, 749), 1) == Some(b.children[2]) &&
      GetBlock(b, Point(0, 749), 2) == Some(b.children[2])
  {
    var b := Board16(c0, c1, c2, c3);
    var p := Point(0, 749);
    assert GetBlock(b.children[0], p, 1).None? && GetBlock(b.children[1], p, 1).None?;
    FirstFoundAt(b.children, p, 1, 2);
    assert GetBlock(b.children[0], p, 2).None? && GetBlock(b.children[1], p, 2).None?;
    FirstFoundAt(b.children, p, 2, 2);
  }

  /** The locator on board_2x2 at the middle of the board. */
  lemma LocateMiddle2(c0: Colour, c1: Colour, c2: Colour, c3: Colour)
    ensures var b := Board2(c0, c1, c2, c3);
      GetBlock(b, Point(375, 375), 0) == Some(b) &&
      GetBlock(b, Point(375, 375), 1) == Some(b.children[3])
  {
    var b := Board2(c0, c1, c2, c3);
    var p := Point(375, 375);
    assert GetBlock(b.children[0], p, 1).None? && GetBlock(b.children[1], p, 1).None?;
    assert GetBlock(b.children[2], p, 1).None?;
    FirstFoundAt(b.children, p, 1, 3);
  }

  /** The single-block board of the tests (child_block): perimeter 4 and
      blob 1 for its colour, 0 for any other. */
  lemma UnitBoard(c0: Colour, t: Colour, score: int)
    ensures var b := Leaf(0, 0, 750, c0, 0, 0);
      WellFormed(b) && Flatten(b) == [[c0]] &&
      SideHits(Flatten(b), t) == (if t == c0 then 4 else 0) &&
      (IsLargestBlob(Flatten(b), t, score) ==> score == if t == c0 then 1 else 0)
  {
    var b := Leaf(0, 0, 750, c0, 0, 0);
    FlattenSmallLeaf(b);
    var g := Flatten(b);
    SideHitsOneCell(g, t);
    if IsLargestBlob(g, t, score) {
      if t == c0 {
        UniformBlob(g, t, score);
      } else {
        LargestBlobBounds(g, t, score);
      }
    }
  }
}
