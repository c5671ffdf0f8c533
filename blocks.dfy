/** The read-only shape of a Blocky board: a quad-tree of square blocks.
    Children come in quadrant order 0 = top-right, 1 = top-left,
    2 = bottom-left, 3 = bottom-right. */
module Blocks {

  datatype Option<+T> = None | Some(value: T)

  /** An RGB colour, as the game's colour tuples. */
  datatype Colour = RGB(r: int, g: int, b: int)

  /** A pixel coordinate (x grows to the right, y grows downwards). */
  datatype Point = Point(x: int, y: int)

  datatype Block = Block(
    position: Point,        // top-left corner
    size: int,              // edge length in pixels
    colour: Option<Colour>, // present on leaves only
    level: nat,             // 0 at the root
    maxDepth: nat,          // the same in every block of a tree
    children: seq<Block>)   // empty, or the four quadrants in order

  /** The representation invariant of a block: zero or four children, a
      colour exactly on leaves, levels growing by one towards the leaves and
      never beyond the shared maximum depth. So an interior block has no
      colour, and a block at the maximum depth is a coloured leaf. */
  predicate WellFormed(b: Block)
    ensures WellFormed(b) ==> (b.colour.None? <==> |b.children| == 4)
    ensures WellFormed(b) && b.level == b.maxDepth ==> b.colour.Some? && b.children == []
    decreases b
  {
    (|b.children| == 0 || |b.children| == 4) &&
    (b.colour.Some? <==> |b.children| == 0) &&
    b.level <= b.maxDepth &&
    (|b.children| == 4 ==> b.level < b.maxDepth) &&
    forall i :: 0 <= i < |b.children| ==>
      b.children[i].level == b.level + 1 &&
      b.children[i].maxDepth == b.maxDepth &&
      WellFormed(b.children[i])
  }

  /** Whether the pixel p lies in the half-open square of b: the top and left
      edges belong to the block, the bottom and right edges do not. Only a
      block of positive size contains a pixel, and the pixel one block width
      to the right of, or below, a pixel of b is outside b. */
  predicate Contains(b: Block, p: Point): (r: bool)
    ensures r ==> b.size >= 1
    ensures r ==> !(p.x + b.size < b.position.x + b.size) && !(p.y + b.size < b.position.y + b.size)
  {
    b.position.x <= p.x < b.position.x + b.size &&
    b.position.y <= p.y < b.position.y + b.size
  }

  /** Geometry of the quadrants: every interior block has four children of
      one size h, with 2h covering its own size, placed at the quadrant
      offsets 0 = (h, 0), 1 = (0, 0), 2 = (0, h), 3 = (h, h). */
  predicate Tiles(b: Block)
    decreases b
  {
    (|b.children| == 4 ==>
      var h := b.children[1].size;
      var x, y := b.position.x, b.position.y;
      b.size <= 2 * h &&
      b.children[0].size == h && b.children[2].size == h && b.children[3].size == h &&
      b.children[0].position == Point(x + h, y) &&
      b.children[1].position == Point(x, y) &&
      b.children[2].position == Point(x, y + h) &&
      b.children[3].position == Point(x + h, y + h)) &&
    forall i :: 0 <= i < |b.children| ==> Tiles(b.children[i])
  }

  /** d is b itself or one of its descendants. */
  predicate IsSubtree(d: Block, b: Block)
    decreases b
  {
    d == b || exists i :: 0 <= i < |b.children| && IsSubtree(d, b.children[i])
  }

  function Pow2(k: nat): (r: nat)
    ensures r >= 1
  {
    if k == 0 then 1 else 2 * Pow2(k - 1)
  }
}
