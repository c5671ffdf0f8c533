/** The goals of goal.py: a goal is a perimeter goal or a blob goal for one
    target colour, and a game deals every player a goal of the same kind,
    each with a different colour drawn from the colour palette. */
module Goals {
  import opened Blocks
  import opened Grids
  import opened Perimeter
  import opened Blob
  import opened FloodFill

  datatype Goal = PerimeterGoal(colour: Colour) | BlobGoal(colour: Colour)

  /** score is the value of goal on board: the four-sides count of the
      flattened board for a perimeter goal, the size of its largest blob
      for a blob goal. */
  ghost predicate GoalScore(goal: Goal, board: Block, score: int)
    requires WellFormed(board)
  {
    match goal
    case PerimeterGoal(c) => score == SideHits(Flatten(board), c)
    case BlobGoal(c) => IsLargestBlob(Flatten(board), c, score)
  }

  /** Goal.score for either kind of goal; never negative. */
  method Score(goal: Goal, board: Block) returns (score: int)
    requires WellFormed(board)
    ensures GoalScore(goal, board, score)
    ensures 0 <= score
  {
    match goal {
      case PerimeterGoal(c) =>
        score := PerimeterScore(c, board);
        SideHitsBounds(Flatten(board), c);
      case BlobGoal(c) =>
        score := BlobScore(c, board);
        LargestBlobBounds(Flatten(board), c, score);
    }
  }

  /** The position of the first occurrence of x in s. */
  function FirstIndex(s: seq<Colour>, x: Colour): (i: nat)
    requires x in s
    ensures i < |s| && s[i] == x && x !in s[..i]
  {
    if s[0] == x then 0
    else
      var k := FirstIndex(s[1..], x);
      assert s[..k + 1] == [s[0]] + s[1..][..k];
      k + 1
  }

  /** The list s after Python's list.remove(x): the first occurrence of x
      is cut out, the elements before and after it keep their order; one
      fewer x and nothing else changes in the multiset of s. */
  function RemoveFirst(s: seq<Colour>, x: Colour): (r: seq<Colour>)
    requires x in s
    ensures |r| == |s| - 1
    ensures multiset(r) == multiset(s) - multiset{x}
  {
    var i := FirstIndex(s, x);
    assert s == s[..i] + [x] + s[i + 1..];
    s[..i] + s[i + 1..]
  }

  /** _select_colour: an arbitrary colour of the pool (the game picks one at
      random), removed from the pool. */
  method SelectColour(pool: seq<Colour>) returns (colour: Colour, rest: seq<Colour>)
    requires |pool| >= 1
    ensures colour in pool
    ensures rest == RemoveFirst(pool, colour)
  {
    var i :| 0 <= i < |pool|;
    colour := pool[i];
    rest := RemoveFirst(pool, colour);
  }

  /** The colours of a list of goals. */
  function Colours(goals: seq<Goal>): (cs: seq<Colour>)
    ensures |cs| == |goals| && forall i :: 0 <= i < |goals| ==> cs[i] == goals[i].colour
  {
    seq(|goals|, i requires 0 <= i < |goals| => goals[i].colour)
  }

  predicate Distinct(s: seq<Colour>) {
    forall i, j :: 0 <= i < j < |s| ==> s[i] != s[j]
  }

  /** Every goal is a perimeter goal, or every goal is a blob goal. */
  predicate SameKind(goals: seq<Goal>) {
    (forall i :: 0 <= i < |goals| ==> goals[i].PerimeterGoal?) ||
    (forall i :: 0 <= i < |goals| ==> goals[i].BlobGoal?)
  }

  /** generate_goals: numGoals goals of one kind, chosen arbitrarily (the
      game flips a coin), whose colours are drawn one by one, without
      replacement, from a copy of the palette. */
  method GenerateGoals(palette: seq<Colour>, numGoals: nat) returns (goals: seq<Goal>)
    requires numGoals <= |palette|
    ensures |goals| == numGoals
    ensures SameKind(goals)
    ensures multiset(Colours(goals)) <= multiset(palette)
    ensures Distinct(palette) ==> Distinct(Colours(goals))
  {
    var pool := palette;
    goals := [];
    var perimeter: bool :| true;
    var i := 0;
    while i < numGoals
      invariant 0 <= i <= numGoals && |goals| == i && |pool| == |palette| - i
      invariant multiset(Colours(goals)) + multiset(pool) == multiset(palette)
      invariant forall j :: 0 <= j < i ==> goals[j].PerimeterGoal? == perimeter
    {
      var colour;
      colour, pool := SelectColour(pool);
      var goal := if perimeter then PerimeterGoal(colour) else BlobGoal(colour);
      assert Colours(goals + [goal]) == Colours(goals) + [colour];
      goals := goals + [goal];
      i := i + 1;
    }
    if Distinct(palette) {
      DrawnDistinct(Colours(goals), palette);
    }
  }

  /** Drawn from a palette without repeats, the goals have pairwise
      different colours. */
  lemma {:induction false} DrawnDistinct(cs: seq<Colour>, palette: seq<Colour>)
    requires Distinct(palette) && multiset(cs) <= multiset(palette)
    ensures Distinct(cs)
  {
    forall i, j | 0 <= i < j < |cs|
      ensures cs[i] != cs[j]
    {
      TwoOccurrences(cs, i, j);
      DistinctOnce(palette, cs[i]);
    }
  }

  lemma TwoOccurrences(cs: seq<Colour>, i: int, j: int)
    requires 0 <= i < j < |cs|
    ensures cs[i] == cs[j] ==> multiset(cs)[cs[i]] >= 2
  {
    if cs[i] == cs[j] {
      var x := cs[i];
      assert cs == cs[..i] + [x] + cs[i + 1..j] + [x] + cs[j + 1..];
    }
  }

  /** In a palette without repeats every colour occurs at most once. */
  lemma {:induction false} DistinctOnce(s: seq<Colour>, x: Colour)
    requires Distinct(s)
    ensures multiset(s)[x] <= 1
  {
    if s != [] {
      assert s == [s[0]] + s[1..];
      DistinctOnce(s[1..], x);
      assert s[0] !in s[1..];
    }
  }
}
