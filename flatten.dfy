/** Flattening a block into a square grid of unit cells (goal.py). A grid is
    a sequence of columns; g[c][r] is the unit cell at column c, row r, and
    g[0][0] is the top-left corner. */
module Grids {
  import opened Blocks

  type Column = seq<Colour>
  type Grid = seq<Column>

  /** g has n columns of n cells each. */
  predicate IsSquare(g: Grid, n: nat) {
    |g| == n && forall c :: 0 <= c < n ==> |g[c]| == n
  }

  /** The number of unit cells along one edge of b: 2^(maxDepth - level). */
  function Side(b: Block): (n: nat)
    requires b.level <= b.maxDepth
    ensures n >= 1
  {
    Pow2(b.maxDepth - b.level)
  }

  /** The four children of a well-formed interior block are well-formed,
      one level down, and each has a grid of half the parent's side. */
  lemma ChildSides(b: Block)
    requires WellFormed(b) && |b.children| == 4
    ensures forall i :: 0 <= i < 4 ==>
      WellFormed(b.children[i]) && b.children[i].level == b.level + 1 &&
      b.children[i].maxDepth == b.maxDepth &&
      Side(b) == 2 * Side(b.children[i])
  {
    assert Side(b) == 2 * Pow2(b.maxDepth - b.level - 1);
  }

  /** The columns of l1 with the columns of l2 stacked beneath them, index by
      index (the helper _combine). */
  function Combine(l1: Grid, l2: Grid): (r: Grid)
    requires |l1| == |l2|
    ensures |r| == |l1|
    ensures forall i :: 0 <= i < |r| ==> r[i] == l1[i] + l2[i]
  {
    if l1 == [] then [] else [l1[0] + l2[0]] + Combine(l1[1..], l2[1..])
  }

  /** An n by n grid every cell of which is c. */
  function Uniform(n: nat, c: Colour): (g: Grid)
    ensures IsSquare(g, n)
    ensures forall i, j :: 0 <= i < n && 0 <= j < n ==> g[i][j] == c
  {
    seq(n, _ => seq(n, _ => c))
  }

  /** The grid of b (the function _flatten): a leaf fills its whole grid
      with its colour; an interior block puts its top-left child's columns
      over its bottom-left child's on the left half and its top-right child's
      over its bottom-right child's on the right half. */
  function Flatten(b: Block): (g: Grid)
    requires WellFormed(b)
    ensures IsSquare(g, Side(b))
    decreases b
  {
    if |b.children| == 0 then
      Uniform(Side(b), b.colour.value)
    else
      ChildSides(b);
      var tr, tl := Flatten(b.children[0]), Flatten(b.children[1]);
      var bl, br := Flatten(b.children[2]), Flatten(b.children[3]);
      Combine(tl, bl) + Combine(tr, br)
  }

  /** The colour of the unit cell at column c, row r of b, found by walking
      down the quadrants that contain it: an independent, point-wise
      description of the flattened grid. */
  function ColourAt(b: Block, c: nat, r: nat): Colour
    requires WellFormed(b)
    requires c < Side(b) && r < Side(b)
    decreases b
  {
    if |b.children| == 0 then b.colour.value
    else
      ChildSides(b);
      var h := Side(b.children[0]);
      if c < h && r < h then ColourAt(b.children[1], c, r)
      else if c < h then ColourAt(b.children[2], c, r - h)
      else if r < h then ColourAt(b.children[0], c - h, r)
      else ColourAt(b.children[3], c - h, r - h)
  }

  /** On a leaf, every cell of the grid has the leaf's colour. */
  lemma FlattenLeaf(b: Block, c: nat, r: nat)
    requires WellFormed(b) && |b.children| == 0
    requires c < Side(b) && r < Side(b)
    ensures Flatten(b)[c][r] == b.colour.value
  {
  }

  /** The layout of an interior block's grid: with h the side of a child's
      grid, the left half of the columns is top-left over bottom-left and
      the right half is top-right over bottom-right. */
  lemma QuadrantCell(tl: Grid, bl: Grid, tr: Grid, br: Grid, h: nat, c: nat, r: nat)
    requires IsSquare(tl, h) && IsSquare(bl, h) && IsSquare(tr, h) && IsSquare(br, h)
    requires c < 2 * h && r < 2 * h
    ensures IsSquare(Combine(tl, bl) + Combine(tr, br), 2 * h)
    ensures c < h ==>
      (Combine(tl, bl) + Combine(tr, br))[c][r] == (if r < h then tl[c][r] else bl[c][r - h])
    ensures h <= c ==>
      (Combine(tl, bl) + Combine(tr, br))[c][r] == (if r < h then tr[c - h][r] else br[c - h][r - h])
  {
    QuadrantSquare(tl, bl, tr, br, h);
    StackedHalf(Combine(tl, bl), Combine(tr, br), h, c);
    if c < h {
      StackedCell(tl, bl, h, c, r);
    } else {
      StackedCell(tr, br, h, c - h, r);
    }
  }

  /** Column c of left + right, with left h columns long, is column c of
      left or column c - h of right. */
  lemma StackedHalf(left: Grid, right: Grid, h: nat, c: nat)
    requires |left| == h && c < h + |right|
    ensures (left + right)[c] == if c < h then left[c] else right[c - h]
  {
  }

  /** The grid of an interior block built from four h by h grids is 2h by 2h. */
  lemma QuadrantSquare(tl: Grid, bl: Grid, tr: Grid, br: Grid, h: nat)
    requires IsSquare(tl, h) && IsSquare(bl, h) && IsSquare(tr, h) && IsSquare(br, h)
    ensures IsSquare(Combine(tl, bl) + Combine(tr, br), 2 * h)
  {
    var left, right := Combine(tl, bl), Combine(tr, br);
    var g := left + right;
    StackedColumns(tl, bl, h);
    StackedColumns(tr, br, h);
    forall i | 0 <= i < 2 * h
      ensures |g[i]| == 2 * h
    {
      if i < h {
        assert g[i] == left[i];
      } else {
        assert g[i] == right[i - h];
      }
    }
  }

  /** Combine(top, bottom) of two h by h grids has h columns of 2h cells. */
  lemma StackedColumns(top: Grid, bottom: Grid, h: nat)
    requires IsSquare(top, h) && IsSquare(bottom, h)
    ensures |Combine(top, bottom)| == h
    ensures forall i :: 0 <= i < h ==> |Combine(top, bottom)[i]| == 2 * h
  {
  }

  /** A cell of Combine(top, bottom) is the cell of top above row h and of
      bottom from row h on. */
  lemma StackedCell(top: Grid, bottom: Grid, h: nat, c: nat, r: nat)
    requires IsSquare(top, h) && IsSquare(bottom, h)
    requires c < h && r < 2 * h
    ensures Combine(top, bottom)[c][r] == if r < h then top[c][r] else bottom[c][r - h]
  {
    assert Combine(top, bottom)[c] == top[c] + bottom[c];
  }

  /** Every cell of the flattened grid is the colour of the leaf that covers
      that unit cell. */
  lemma {:induction false} FlattenCell(b: Block, c: nat, r: nat)
    requires WellFormed(b)
    requires c < Side(b) && r < Side(b)
    ensures Flatten(b)[c][r] == ColourAt(b, c, r)
    decreases b
  {
    if |b.children| == 4 {
      ChildSides(b);
      var h := Side(b.children[0]);
      var tr, tl := Flatten(b.children[0]), Flatten(b.children[1]);
      var bl, br := Flatten(b.children[2]), Flatten(b.children[3]);
      assert Flatten(b) == Combine(tl, bl) + Combine(tr, br);
      QuadrantCell(tl, bl, tr, br, h, c, r);
      if c < h && r < h {
        FlattenCell(b.children[1], c, r);
      } else if c < h {
        FlattenCell(b.children[2], c, r - h);
      } else if r < h {
        FlattenCell(b.children[0], c - h, r);
      } else {
        FlattenCell(b.children[3], c - h, r - h);
      }
    }
  }
}
