/** The blob goal of goal.py: the size of the largest 4-connected region of
    unit cells of the target colour, found by a flood fill that records in a
    `visited` grid, cell by cell, -1 (never visited), 0 (visited, not the
    target colour) or 1 (visited, target colour). */
module Blob {
  import opened Blocks
  import opened Grids

  /** A unit cell, as (column, row). */
  type Cell = (int, int)

  predicate InGrid(n: int, a: Cell) {
    0 <= a.0 < n && 0 <= a.1 < n
  }

  /** a is a cell of g whose colour is t. */
  predicate IsTarget(g: Grid, t: Colour, a: Cell) {
    InGrid(|g|, a) && a.1 < |g[a.0]| && g[a.0][a.1] == t
  }

  /** b shares a side with a (touching corners do not count). */
  predicate Adjacent(a: Cell, b: Cell) {
    b == (a.0 + 1, a.1) || b == (a.0 - 1, a.1) || b == (a.0, a.1 + 1) || b == (a.0, a.1 - 1)
  }

  /** p is a walk through side-adjacent cells of colour t. */
  ghost predicate IsPath(g: Grid, t: Colour, p: seq<Cell>) {
    |p| >= 1 &&
    (forall i :: 0 <= i < |p| ==> IsTarget(g, t, p[i])) &&
    (forall i :: 0 <= i < |p| - 1 ==> Adjacent(p[i], p[i + 1]))
  }

  /** b can be reached from a through cells of colour t. */
  ghost predicate Reach(g: Grid, t: Colour, a: Cell, b: Cell) {
    exists p :: IsPath(g, t, p) && p[0] == a && p[|p| - 1] == b
  }

  function AllCells(n: nat): set<Cell> {
    set c, r | 0 <= c < n && 0 <= r < n :: (c, r)
  }

  /** The blob of a: every cell of colour t connected to a. */
  ghost function Component(g: Grid, t: Colour, a: Cell): set<Cell> {
    set b | b in AllCells(|g|) && Reach(g, t, a, b)
  }

  /** The sizes of all blobs of colour t. */
  ghost function BlobSizes(g: Grid, t: Colour): set<int> {
    set a | a in AllCells(|g|) && IsTarget(g, t, a) :: |Component(g, t, a)|
  }

  /** score is the number of cells in the largest blob of colour t, and 0
      when t does not occur. */
  ghost predicate IsLargestBlob(g: Grid, t: Colour, score: int) {
    (forall a :: IsTarget(g, t, a) ==> |Component(g, t, a)| <= score) &&
    (if exists a :: IsTarget(g, t, a)
     then exists a :: IsTarget(g, t, a) && |Component(g, t, a)| == score
     else score == 0)
  }

  // ---------------------------------------------------------------------
  // Walks

  lemma ReachSelf(g: Grid, t: Colour, a: Cell)
    requires IsTarget(g, t, a)
    ensures Reach(g, t, a, a)
  {
    assert IsPath(g, t, [a]);
  }

  /** A walk from a neighbour q of a target cell a extends back to a. */
  lemma ReachPrepend(g: Grid, t: Colour, a: Cell, q: Cell, b: Cell)
    requires IsTarget(g, t, a) && Adjacent(a, q) && Reach(g, t, q, b)
    ensures Reach(g, t, a, b)
  {
    var p :| IsPath(g, t, p) && p[0] == q && p[|p| - 1] == b;
    var p' := [a] + p;
    assert forall i :: 0 <= i < |p| ==> p'[i + 1] == p[i];
    assert IsPath(g, t, p');
  }

  function Reverse(p: seq<Cell>): (r: seq<Cell>)
    ensures |r| == |p| && forall i :: 0 <= i < |p| ==> r[i] == p[|p| - 1 - i]
  {
    if p == [] then [] else Reverse(p[1..]) + [p[0]]
  }

  lemma ReachSymmetric(g: Grid, t: Colour, a: Cell, b: Cell)
    requires Reach(g, t, a, b)
    ensures Reach(g, t, b, a)
  {
    var p :| IsPath(g, t, p) && p[0] == a && p[|p| - 1] == b;
    var r := Reverse(p);
    forall i | 0 <= i < |r| - 1
      ensures Adjacent(r[i], r[i + 1])
    {
      assert Adjacent(p[|p| - 2 - i], p[|p| - 1 - i]);
    }
    assert IsPath(g, t, r);
  }

  lemma ReachTransitive(g: Grid, t: Colour, a: Cell, b: Cell, d: Cell)
    requires Reach(g, t, a, b) && Reach(g, t, b, d)
    ensures Reach(g, t, a, d)
  {
    var p :| IsPath(g, t, p) && p[0] == a && p[|p| - 1] == b;
    var q :| IsPath(g, t, q) && q[0] == b && q[|q| - 1] == d;
    var pq := p + q[1..];
    forall i | 0 <= i < |pq| - 1
      ensures Adjacent(pq[i], pq[i + 1])
    {
      if i == |p| - 1 {
        assert pq[i] == q[0] && pq[i + 1] == q[1];
      } else if i >= |p| {
        assert pq[i] == q[i - |p| + 1];
      }
    }
    assert IsPath(g, t, pq);
  }

  /** Two connected cells have the same blob. */
  lemma SameComponent(g: Grid, t: Colour, a: Cell, b: Cell)
    requires Reach(g, t, a, b)
    ensures Component(g, t, a) == Component(g, t, b)
  {
    ReachSymmetric(g, t, a, b);
    forall d | d in Component(g, t, a)
      ensures d in Component(g, t, b)
    {
      ReachTransitive(g, t, b, a, d);
    }
    forall d | d in Component(g, t, b)
      ensures d in Component(g, t, a)
    {
      ReachTransitive(g, t, a, b, d);
    }
  }

  /** The cells of column c above row m. */
  function ColumnCells(c: int, m: nat): set<Cell> {
    set r | 0 <= r < m :: (c, r)
  }

  /** The cells of the first k columns of height n. */
  function Columns(k: nat, n: nat): set<Cell> {
    set c, r | 0 <= c < k && 0 <= r < n :: (c, r)
  }

  lemma {:induction false} ColumnCellsCard(c: int, m: nat)
    ensures |ColumnCells(c, m)| == m
  {
    if m > 0 {
      ColumnCellsCard(c, m - 1);
      assert ColumnCells(c, m) == ColumnCells(c, m - 1) + {(c, m - 1)};
    }
  }

  lemma ColumnsSplit(k: nat, n: nat)
    requires k > 0
    ensures Columns(k, n) == Columns(k - 1, n) + ColumnCells(k - 1, n)
    ensures Columns(k - 1, n) * ColumnCells(k - 1, n) == {}
  {
  }

  lemma {:induction false} ColumnsCard(k: nat, n: nat)
    ensures |Columns(k, n)| == k * n
  {
    if k > 0 {
      ColumnsCard(k - 1, n);
      ColumnCellsCard(k - 1, n);
      ColumnsSplit(k, n);
      assert (k - 1) * n + n == k * n;
    }
  }

  /** An n by n grid has n * n cells, so no blob is larger. */
  lemma ComponentAtMost(g: Grid, t: Colour, a: Cell)
    ensures |Component(g, t, a)| <= |g| * |g|
  {
    var all, comp := AllCells(|g|), Component(g, t, a);
    ColumnsCard(|g|, |g|);
    assert all == Columns(|g|, |g|);
    assert all == comp + (all - comp);
    assert comp * (all - comp) == {};
  }

  // ---------------------------------------------------------------------
  // The visited grid

  /** The visited grid as a map from cells to marks. */
  ghost function Snap(v: array2<int>): (s: map<Cell, int>)
    reads v
    ensures forall a :: a in s <==> 0 <= a.0 < v.Length0 && 0 <= a.1 < v.Length1
    ensures forall a :: a in s ==> s[a] == v[a.0, a.1]
  {
    map c, r | 0 <= c < v.Length0 && 0 <= r < v.Length1 :: (c, r) := v[c, r]
  }

  /** Every cell of g has a mark; 1 only on cells of colour t and 0 only on
      cells of another colour. */
  ghost predicate Consistent(g: Grid, t: Colour, s: map<Cell, int>) {
    (forall a :: a in s <==> InGrid(|g|, a)) &&
    forall a :: a in s ==>
      (s[a] == -1 || s[a] == 0 || s[a] == 1) &&
      (s[a] == 1 ==> IsTarget(g, t, a)) &&
      (s[a] == 0 ==> !IsTarget(g, t, a))
  }

  /** b is outside the grid or has been visited. */
  ghost predicate Settled(s: map<Cell, int>, b: Cell) {
    b in s ==> s[b] != -1
  }

  ghost predicate NeighboursSettled(s: map<Cell, int>, a: Cell) {
    Settled(s, (a.0 + 1, a.1)) && Settled(s, (a.0 - 1, a.1)) &&
    Settled(s, (a.0, a.1 + 1)) && Settled(s, (a.0, a.1 - 1))
  }

  /** Once a cell is visited its mark never changes. */
  ghost predicate Grows(s0: map<Cell, int>, s1: map<Cell, int>) {
    s0.Keys == s1.Keys &&
    forall a :: a in s0 && s0[a] != -1 ==> s1[a] == s0[a]
  }

  /** The cells marked 1 between state s0 and state s1. */
  ghost function Marked(s0: map<Cell, int>, s1: map<Cell, int>): set<Cell> {
    set a | a in s0 && a in s1 && s0[a] == -1 && s1[a] == 1
  }

  ghost function Unvisited(s: map<Cell, int>): set<Cell> {
    set a | a in s && s[a] == -1
  }

  /** Every cell marked 1 has all its neighbours visited. */
  ghost predicate Closed(s: map<Cell, int>) {
    forall a :: a in s && s[a] == 1 ==> NeighboursSettled(s, a)
  }

  /** p is a walk through side-adjacent cells of m. */
  ghost predicate WalkIn(m: set<Cell>, p: seq<Cell>) {
    |p| >= 1 &&
    (forall i :: 0 <= i < |p| ==> p[i] in m) &&
    (forall i :: 0 <= i < |p| - 1 ==> Adjacent(p[i], p[i + 1]))
  }

  /** b can be reached from a without leaving m. */
  ghost predicate ReachIn(m: set<Cell>, a: Cell, b: Cell) {
    exists p :: WalkIn(m, p) && p[0] == a && p[|p| - 1] == b
  }

  /** Every cell of m is reached from pos without leaving m. */
  ghost predicate ConnectedFrom(m: set<Cell>, pos: Cell) {
    forall a :: a in m ==> ReachIn(m, pos, a)
  }

  /** The cells of colour t that have never been visited. */
  ghost function Fresh(g: Grid, t: Colour, s: map<Cell, int>): set<Cell> {
    set a | a in s.Keys && s[a] == -1 && IsTarget(g, t, a)
  }

  /** The blob of pos made only of cells that have never been visited: what
      _undiscovered_blob_size counts. Empty when pos is off the grid, of
      another colour or already visited. */
  ghost function UndiscoveredBlob(g: Grid, t: Colour, s: map<Cell, int>, pos: Cell): set<Cell> {
    set a | a in Fresh(g, t, s) && ReachIn(Fresh(g, t, s), pos, a)
  }

  /** What one flood fill from pos leaves behind: the cells it marked lie in
      the blob of pos, are reached from pos through cells it marked, and
      their neighbours are all visited. */
  ghost predicate FilledFrom(g: Grid, t: Colour, pos: Cell, s0: map<Cell, int>, s1: map<Cell, int>) {
    Marked(s0, s1) <= Component(g, t, pos) &&
    ConnectedFrom(Marked(s0, s1), pos) &&
    forall a :: a in Marked(s0, s1) ==> NeighboursSettled(s1, a)
  }

  /** The i-th neighbour of a, in the order the flood fill visits them:
      right, left, below, above. */
  function Neighbour(a: Cell, i: nat): (b: Cell)
    requires i < 4
    ensures Adjacent(a, b)
  {
    if i == 0 then (a.0 + 1, a.1)
    else if i == 1 then (a.0 - 1, a.1)
    else if i == 2 then (a.0, a.1 + 1)
    else (a.0, a.1 - 1)
  }

  /** a is in m or next to a cell of m. */
  ghost predicate NearMarked(m: set<Cell>, a: Cell) {
    a in m || (a.0 + 1, a.1) in m || (a.0 - 1, a.1) in m || (a.0, a.1 + 1) in m || (a.0, a.1 - 1) in m
  }

  /** The only marks that changed from s0 to s1 are those of pos, of the
      cells newly marked 1 and of their neighbours: the fill touches no
      cell it did not call on. */
  ghost predicate ChangedNear(s0: map<Cell, int>, s1: map<Cell, int>, pos: Cell) {
    forall a :: a in s0 && a in s1 && s1[a] != s0[a] ==> a == pos || NearMarked(Marked(s0, s1), a)
  }

  /** What a call of the flood fill from pos promises about the marks s1 it
      leaves, starting from the marks s0, and the size it returns. */
  ghost predicate FillDone(g: Grid, t: Colour, pos: Cell, s0: map<Cell, int>, s1: map<Cell, int>, size: int) {
    Consistent(g, t, s1) && Grows(s0, s1) && Settled(s1, pos) &&
    FilledFrom(g, t, pos, s0, s1) && size == |Marked(s0, s1)| &&
    (Marked(s0, s1) != {} ==> pos in Marked(s0, s1)) &&
    ChangedNear(s0, s1, pos)
  }

  /** The first `done` neighbours of pos have been visited. */
  ghost predicate FirstSettled(s: map<Cell, int>, pos: Cell, done: nat) {
    done <= 4 && forall i :: 0 <= i < done ==> Settled(s, Neighbour(pos, i))
  }

  /** Every cell marked since s0, except pos, has its neighbours visited. */
  ghost predicate ClosedExcept(s0: map<Cell, int>, s: map<Cell, int>, pos: Cell) {
    forall a :: a in Marked(s0, s) && a != pos ==> NeighboursSettled(s, a)
  }

  /** Part way through the fill from pos, after its first `done` neighbours:
      pos is marked, everything marked since s0 lies in the blob of pos,
      every marked cell other than pos has its neighbours visited, and so
      have those first neighbours. */
  ghost predicate Partial(g: Grid, t: Colour, pos: Cell, s0: map<Cell, int>, s: map<Cell, int>,
                          size: int, done: nat)
  {
    Consistent(g, t, s) && IsTarget(g, t, pos) &&
    Grows(s0, s) && pos in Marked(s0, s) && size == |Marked(s0, s)| &&
    FirstSettled(s, pos, done) &&
    Marked(s0, s) <= Component(g, t, pos) && ClosedExcept(s0, s, pos) &&
    ChangedNear(s0, s, pos) && ConnectedFrom(Marked(s0, s), pos)
  }

  lemma AllCellsHas(n: nat, a: Cell)
    requires InGrid(n, a)
    ensures a in AllCells(n)
  {
    assert a == (a.0, a.1);
  }

  /** Marking the unvisited target cell pos starts a fill. */
  lemma StartFill(g: Grid, t: Colour, pos: Cell, s0: map<Cell, int>, s1: map<Cell, int>)
    requires Consistent(g, t, s0) && IsTarget(g, t, pos) && s0[pos] == -1
    requires s1 == s0[pos := 1]
    ensures Partial(g, t, pos, s0, s1, 1, 0)
  {
    assert Marked(s0, s1) == {pos};
    ReachSelf(g, t, pos);
    AllCellsHas(|g|, pos);
    assert pos in Component(g, t, pos);
    assert WalkIn({pos}, [pos]);
  }

  /** Before the fill visits the next neighbour, there are fewer unvisited
      cells than when the fill from pos began. */
  lemma PartialShrinks(g: Grid, t: Colour, pos: Cell, s0: map<Cell, int>, s: map<Cell, int>,
                       size: int, done: nat)
    requires Partial(g, t, pos, s0, s, size, done)
    ensures Consistent(g, t, s)
    ensures Unvisited(s) < Unvisited(s0)
  {
    assert pos in Unvisited(s0) && pos !in Unvisited(s);
  }

  /** The blob of a neighbour of a target cell a lies in the blob of a. */
  lemma NeighbourComponent(g: Grid, t: Colour, a: Cell, q: Cell)
    requires IsTarget(g, t, a) && Adjacent(a, q)
    ensures Component(g, t, q) <= Component(g, t, a)
  {
    forall b | b in Component(g, t, q)
      ensures b in Component(g, t, a)
    {
      ReachPrepend(g, t, a, q, b);
    }
  }

  lemma FirstSettledGrows(s: map<Cell, int>, s': map<Cell, int>, pos: Cell, done: nat)
    requires done < 4 && FirstSettled(s, pos, done) && Grows(s, s')
    requires Settled(s', Neighbour(pos, done))
    ensures FirstSettled(s', pos, done + 1)
  {
    forall i | 0 <= i < done + 1
      ensures Settled(s', Neighbour(pos, i))
    {
      if i < done {
        SettledGrows(s, s', Neighbour(pos, i));
      }
    }
  }

  lemma ClosedExceptGrows(s0: map<Cell, int>, s: map<Cell, int>, s': map<Cell, int>, pos: Cell)
    requires Grows(s0, s) && Grows(s, s') && ClosedExcept(s0, s, pos)
    requires forall a :: a in Marked(s, s') ==> NeighboursSettled(s', a)
    ensures ClosedExcept(s0, s', pos)
  {
    MarkedSplit(s0, s, s');
    forall a | a in Marked(s0, s') && a != pos
      ensures NeighboursSettled(s', a)
    {
      if a !in Marked(s, s') {
        NeighboursSettledGrows(s, s', a);
      }
    }
  }

  /** The fill from the next neighbour of pos adds its cells to the fill
      from pos. */
  lemma ExtendFill(g: Grid, t: Colour, pos: Cell, s0: map<Cell, int>, s: map<Cell, int>,
                   s': map<Cell, int>, size: int, done: nat, k: int)
    requires done < 4 && Partial(g, t, pos, s0, s, size, done)
    requires FillDone(g, t, Neighbour(pos, done), s, s', k)
    ensures Partial(g, t, pos, s0, s', size + k, done + 1)
  {
    var q := Neighbour(pos, done);
    MarkedSplit(s0, s, s');
    NeighbourComponent(g, t, pos, q);
    FirstSettledGrows(s, s', pos, done);
    ClosedExceptGrows(s0, s, s', pos);
    ChangedNearGrows(s0, s, s', pos, q);
    ConnectedGrows(s0, s, s', pos, q);
  }

  lemma ReachInMono(m: set<Cell>, m': set<Cell>, a: Cell, b: Cell)
    requires m <= m' && ReachIn(m, a, b)
    ensures ReachIn(m', a, b)
  {
    var p :| WalkIn(m, p) && p[0] == a && p[|p| - 1] == b;
    assert WalkIn(m', p);
  }

  /** A walk within m from q extends to a walk from a neighbour a of q in m. */
  lemma ReachInPrepend(m: set<Cell>, a: Cell, q: Cell, b: Cell)
    requires a in m && Adjacent(a, q) && ReachIn(m, q, b)
    ensures ReachIn(m, a, b)
  {
    var p :| WalkIn(m, p) && p[0] == q && p[|p| - 1] == b;
    var p' := [a] + p;
    assert forall i :: 0 <= i < |p| ==> p'[i + 1] == p[i];
    assert WalkIn(m, p');
  }

  /** The cells a fill from a neighbour q of the marked cell pos marks are
      reached from pos through marked cells. */
  lemma ConnectedGrows(s0: map<Cell, int>, s: map<Cell, int>, s': map<Cell, int>, pos: Cell, q: Cell)
    requires Grows(s0, s) && Grows(s, s') && pos in Marked(s0, s) && Adjacent(pos, q)
    requires ConnectedFrom(Marked(s0, s), pos) && ConnectedFrom(Marked(s, s'), q)
    ensures ConnectedFrom(Marked(s0, s'), pos)
  {
    MarkedSplit(s0, s, s');
    var m := Marked(s0, s');
    forall a | a in m
      ensures ReachIn(m, pos, a)
    {
      if a in Marked(s0, s) {
        ReachInMono(Marked(s0, s), m, pos, a);
      } else {
        ReachInMono(Marked(s, s'), m, q, a);
        ReachInPrepend(m, pos, q, a);
      }
    }
  }

  /** The marks changed by the fill from a neighbour q of the marked cell
      pos are near the cells marked from pos. */
  lemma ChangedNearGrows(s0: map<Cell, int>, s: map<Cell, int>, s': map<Cell, int>, pos: Cell, q: Cell)
    requires Grows(s0, s) && Grows(s, s') && pos in Marked(s0, s) && Adjacent(pos, q)
    requires ChangedNear(s0, s, pos) && ChangedNear(s, s', q)
    ensures ChangedNear(s0, s', pos)
  {
    MarkedSplit(s0, s, s');
    var m := Marked(s0, s');
    forall a | a in s0 && a in s' && s'[a] != s0[a]
      ensures a == pos || NearMarked(m, a)
    {
      if s[a] != s0[a] {
        assert a == pos || NearMarked(Marked(s0, s), a);
      } else if a != q {
        assert NearMarked(Marked(s, s'), a);
      } else {
        assert pos in m;
      }
    }
  }

  lemma SettledGrows(s: map<Cell, int>, s': map<Cell, int>, b: Cell)
    requires Grows(s, s') && Settled(s, b)
    ensures Settled(s', b)
  {
  }

  lemma NeighboursSettledGrows(s: map<Cell, int>, s': map<Cell, int>, a: Cell)
    requires Grows(s, s') && NeighboursSettled(s, a)
    ensures NeighboursSettled(s', a)
  {
    SettledGrows(s, s', (a.0 + 1, a.1));
    SettledGrows(s, s', (a.0 - 1, a.1));
    SettledGrows(s, s', (a.0, a.1 + 1));
    SettledGrows(s, s', (a.0, a.1 - 1));
  }

  /** The cells marked from s0 to s2 are those marked from s0 to s1 and,
      apart from them, those marked from s1 to s2. */
  lemma MarkedSplit(s0: map<Cell, int>, s1: map<Cell, int>, s2: map<Cell, int>)
    requires Grows(s0, s1) && Grows(s1, s2)
    ensures Grows(s0, s2)
    ensures Marked(s0, s2) == Marked(s0, s1) + Marked(s1, s2)
    ensures Marked(s0, s1) * Marked(s1, s2) == {}
    ensures |Marked(s0, s2)| == |Marked(s0, s1)| + |Marked(s1, s2)|
  {
    assert Marked(s0, s2) == Marked(s0, s1) + Marked(s1, s2);
    assert Marked(s0, s1) * Marked(s1, s2) == {};
  }

  /** A fill that finds pos off the grid or already visited marks nothing. */
  lemma NothingFilled(g: Grid, t: Colour, pos: Cell, s0: map<Cell, int>)
    requires Consistent(g, t, s0) && (InGrid(|g|, pos) ==> s0[pos] != -1)
    ensures FillDone(g, t, pos, s0, s0, 0)
  {
    assert Marked(s0, s0) == {};
  }

  /** A fill that finds pos of another colour marks it 0 and nothing 1. */
  lemma MarkOther(g: Grid, t: Colour, pos: Cell, s0: map<Cell, int>, s1: map<Cell, int>)
    requires Consistent(g, t, s0) && InGrid(|g|, pos) && !IsTarget(g, t, pos)
    requires s1 == s0[pos := 0]
    ensures FillDone(g, t, pos, s0, s1, 0)
  {
    assert Marked(s0, s1) == {};
  }

  /** A fill counts exactly the blob of pos among the cells never visited
      before it: every cell it marks is reached from pos through unvisited
      target cells, and every such cell is marked. */
  lemma FillIsUndiscovered(g: Grid, t: Colour, pos: Cell, s0: map<Cell, int>, s1: map<Cell, int>, size: int)
    requires FillDone(g, t, pos, s0, s1, size)
    ensures Marked(s0, s1) == UndiscoveredBlob(g, t, s0, pos)
    ensures size == |UndiscoveredBlob(g, t, s0, pos)|
  {
    var m := Marked(s0, s1);
    var f := Fresh(g, t, s0);
    assert m <= f;
    forall a | a in m
      ensures a in UndiscoveredBlob(g, t, s0, pos)
    {
      ReachInMono(m, f, pos, a);
    }
    forall a | a in UndiscoveredBlob(g, t, s0, pos)
      ensures a in m
    {
      var p :| WalkIn(f, p) && p[0] == pos && p[|p| - 1] == a;
      assert pos in f && Settled(s1, pos);
      FreshWalkMarked(g, t, s0, s1, p);
    }
  }

  /** A walk through unvisited target cells that starts at a marked cell
      ends at a marked cell, when every marked cell has its neighbours
      visited. */
  lemma {:induction false} FreshWalkMarked(g: Grid, t: Colour, s0: map<Cell, int>, s1: map<Cell, int>,
                                           p: seq<Cell>)
    requires Consistent(g, t, s1) && s0.Keys == s1.Keys
    requires forall a :: a in Marked(s0, s1) ==> NeighboursSettled(s1, a)
    requires WalkIn(Fresh(g, t, s0), p) && p[0] in Marked(s0, s1)
    ensures p[|p| - 1] in Marked(s0, s1)
    decreases |p|
  {
    if |p| > 1 {
      var p' := p[..|p| - 1];
      assert forall i :: 0 <= i < |p'| ==> p'[i] == p[i];
      assert WalkIn(Fresh(g, t, s0), p');
      FreshWalkMarked(g, t, s0, s1, p');
      FreshStepMarked(g, t, s0, s1, p[|p| - 2], p[|p| - 1]);
    }
  }

  /** An unvisited target cell next to a cell whose neighbours are visited
      has been marked 1. */
  lemma FreshStepMarked(g: Grid, t: Colour, s0: map<Cell, int>, s1: map<Cell, int>, a: Cell, b: Cell)
    requires Consistent(g, t, s1) && s0.Keys == s1.Keys
    requires NeighboursSettled(s1, a) && Adjacent(a, b) && b in Fresh(g, t, s0)
    ensures b in Marked(s0, s1)
  {
    assert Settled(s1, b);
  }

  /** After all four neighbours, the fill from pos is done. */
  lemma FinishFill(g: Grid, t: Colour, pos: Cell, s0: map<Cell, int>, s: map<Cell, int>, size: int)
    requires Partial(g, t, pos, s0, s, size, 4)
    ensures FillDone(g, t, pos, s0, s, size)
  {
    assert Settled(s, Neighbour(pos, 0)) && Settled(s, Neighbour(pos, 1));
    assert Settled(s, Neighbour(pos, 2)) && Settled(s, Neighbour(pos, 3));
    assert NeighboursSettled(s, pos);
  }

  // ---------------------------------------------------------------------
  // What the scan of BlobGoal.score establishes

  /** The largest element of a non-empty sequence (Python's max). */
  function Max(s: seq<int>): (m: int)
    requires |s| >= 1
    ensures m in s && forall i :: 0 <= i < |s| ==> s[i] <= m
  {
    if |s| == 1 then s[0]
    else
      var m := Max(s[..|s| - 1]);
      assert forall i :: 0 <= i < |s| - 1 ==> s[i] == s[..|s| - 1][i];
      if s[|s| - 1] > m then s[|s| - 1] else m
  }

  /** What the scan keeps between two calls of the flood fill: the marks
      are consistent, every cell marked 1 has all its neighbours visited,
      every recorded score is 0 or the size of a blob, and the blob of
      every cell marked 1 has had its size recorded. */
  ghost predicate ScanInv(g: Grid, t: Colour, s: map<Cell, int>, scores: seq<int>) {
    Consistent(g, t, s) && Closed(s) &&
    (forall i :: 0 <= i < |scores| ==> scores[i] == 0 || scores[i] in BlobSizes(g, t)) &&
    (forall a :: a in s && s[a] == 1 ==> |Component(g, t, a)| in scores)
  }

  /** Every cell before column c, row r in scan order has been visited. */
  ghost predicate Scanned(s: map<Cell, int>, c: int, r: int) {
    forall a :: a in s && (a.0 < c || (a.0 == c && a.1 < r)) ==> s[a] != -1
  }

  lemma InOwnComponent(g: Grid, t: Colour, a: Cell)
    requires IsTarget(g, t, a)
    ensures a in Component(g, t, a)
  {
    ReachSelf(g, t, a);
    AllCellsHas(|g|, a);
  }

  /** A walk that starts at a cell marked by a fill stays among the cells
      that fill marked: the fill visits every neighbour of what it marks,
      and a cell marked before the fill cannot touch one it marks. */
  lemma {:induction false} PathMarked(g: Grid, t: Colour, p: seq<Cell>, s: map<Cell, int>,
                                      s': map<Cell, int>, i: nat)
    requires Consistent(g, t, s) && Consistent(g, t, s') && Closed(s) && Grows(s, s')
    requires forall a :: a in Marked(s, s') ==> NeighboursSettled(s', a)
    requires IsPath(g, t, p) && p[0] in Marked(s, s') && i < |p|
    ensures p[i] in Marked(s, s')
    decreases i
  {
    if i > 0 {
      PathMarked(g, t, p, s, s', i - 1);
      assert Adjacent(p[i - 1], p[i]) && IsTarget(g, t, p[i]);
      StepMarked(g, t, p[i - 1], p[i], s, s');
    }
  }

  /** A target cell next to a cell that a fill marked was marked by it too. */
  lemma StepMarked(g: Grid, t: Colour, a: Cell, b: Cell, s: map<Cell, int>, s': map<Cell, int>)
    requires Consistent(g, t, s) && Consistent(g, t, s') && Closed(s) && Grows(s, s')
    requires a in Marked(s, s') && NeighboursSettled(s', a)
    requires Adjacent(a, b) && IsTarget(g, t, b)
    ensures b in Marked(s, s')
  {
    SettledNeighbour(s', a, b);
    ClosedNeighbour(s, b, a);
    assert b in s && b in s';
  }

  lemma SettledNeighbour(s: map<Cell, int>, a: Cell, b: Cell)
    requires NeighboursSettled(s, a) && Adjacent(a, b)
    ensures Settled(s, b)
  {
  }

  /** A cell marked 1 before the scan's current fill has no unvisited
      neighbour. */
  lemma ClosedNeighbour(s: map<Cell, int>, b: Cell, a: Cell)
    requires Closed(s) && Adjacent(a, b)
    ensures b in s && s[b] == 1 ==> Settled(s, a)
  {
    if b in s && s[b] == 1 {
      assert NeighboursSettled(s, b);
      assert Adjacent(b, a);
      SettledNeighbour(s, b, a);
    }
  }

  /** A fill that marks its starting cell marks exactly the blob of that
      cell. */
  lemma FillIsComponent(g: Grid, t: Colour, pos: Cell, s: map<Cell, int>, s': map<Cell, int>, k: int)
    requires Consistent(g, t, s) && Closed(s)
    requires FillDone(g, t, pos, s, s', k) && pos in Marked(s, s')
    ensures Marked(s, s') == Component(g, t, pos)
  {
    forall b | b in Component(g, t, pos)
      ensures b in Marked(s, s')
    {
      var p :| IsPath(g, t, p) && p[0] == pos && p[|p| - 1] == b;
      PathMarked(g, t, p, s, s', |p| - 1);
    }
  }

  /** After a fill, every cell marked 1 still has its neighbours visited. */
  lemma ClosedAfterFill(g: Grid, t: Colour, pos: Cell, s: map<Cell, int>, s': map<Cell, int>, k: int)
    requires Closed(s) && FillDone(g, t, pos, s, s', k)
    ensures Closed(s')
  {
    forall a | a in s' && s'[a] == 1
      ensures NeighboursSettled(s', a)
    {
      if a !in Marked(s, s') {
        NeighboursSettledGrows(s, s', a);
      }
    }
  }

  /** One call of the flood fill in the scan, followed by recording its
      size, keeps the scan invariant. */
  lemma ScanStep(g: Grid, t: Colour, pos: Cell, s: map<Cell, int>, s': map<Cell, int>,
                 scores: seq<int>, k: int)
    requires ScanInv(g, t, s, scores) && FillDone(g, t, pos, s, s', k)
    ensures ScanInv(g, t, s', scores + [k])
  {
    var scores' := scores + [k];
    ClosedAfterFill(g, t, pos, s, s', k);
    if pos in Marked(s, s') {
      FillIsComponent(g, t, pos, s, s', k);
      assert pos in AllCells(|g|) && IsTarget(g, t, pos);
      assert k in BlobSizes(g, t);
    } else {
      assert k == 0;
    }
    forall a | a in s' && s'[a] == 1
      ensures |Component(g, t, a)| in scores'
    {
      if a in Marked(s, s') {
        assert Reach(g, t, pos, a);
        SameComponent(g, t, pos, a);
        FillIsComponent(g, t, pos, s, s', k);
        assert |Component(g, t, a)| == scores'[|scores|];
      } else {
        assert |Component(g, t, a)| in scores;
      }
    }
    assert forall i :: 0 <= i < |scores| ==> scores'[i] == scores[i];
  }

  /** When every cell has been visited, the maximum of the recorded scores
      is the size of the largest blob. */
  lemma ScanEnd(g: Grid, t: Colour, s: map<Cell, int>, scores: seq<int>)
    requires ScanInv(g, t, s, scores) && |scores| >= 1
    requires forall a :: a in s ==> s[a] != -1
    ensures IsLargestBlob(g, t, Max(scores))
  {
    var m := Max(scores);
    forall a | IsTarget(g, t, a)
      ensures |Component(g, t, a)| <= m
    {
      assert a in s && s[a] == 1;
      var i :| 0 <= i < |scores| && scores[i] == |Component(g, t, a)|;
    }
    var i :| 0 <= i < |scores| && scores[i] == m;
    if exists a :: IsTarget(g, t, a) {
      var a :| IsTarget(g, t, a);
      InOwnComponent(g, t, a);
      assert m in BlobSizes(g, t);
    } else {
      assert BlobSizes(g, t) == {};
    }
  }

  /** The next cell in scan order has been visited once the fill from it
      returns. */
  lemma ScannedStep(s: map<Cell, int>, s': map<Cell, int>, c: int, r: int)
    requires Scanned(s, c, r) && Grows(s, s') && Settled(s', (c, r))
    ensures Scanned(s', c, r + 1)
  {
    forall a | a in s' && (a.0 < c || (a.0 == c && a.1 < r + 1))
      ensures s'[a] != -1
    {
      if a.0 == c && a.1 == r {
        assert a == (c, r);
      }
    }
  }

  /** A column scanned to its end is a column fully scanned. */
  lemma ScannedColumn(g: Grid, t: Colour, s: map<Cell, int>, c: int)
    requires Consistent(g, t, s) && Scanned(s, c, |g|)
    ensures Scanned(s, c + 1, 0)
  {
  }

  /** A fresh visited grid, all -1, starts the scan. */
  lemma ScanStart(g: Grid, t: Colour, s: map<Cell, int>)
    requires forall a :: a in s <==> InGrid(|g|, a)
    requires forall a :: a in s ==> s[a] == -1
    ensures ScanInv(g, t, s, []) && Scanned(s, 0, 0)
  {
  }

  // ---------------------------------------------------------------------
  // Properties of the blob score

  /** The largest-blob score is determined by the grid and the colour. */
  lemma LargestBlobUnique(g: Grid, t: Colour, s1: int, s2: int)
    requires IsLargestBlob(g, t, s1) && IsLargestBlob(g, t, s2)
    ensures s1 == s2
  {
    if exists a :: IsTarget(g, t, a) {
      var a1 :| IsTarget(g, t, a1) && |Component(g, t, a1)| == s1;
      var a2 :| IsTarget(g, t, a2) && |Component(g, t, a2)| == s2;
      assert s1 <= s2 && s2 <= s1;
    }
  }

  /** The score lies between 0 and the number of cells of the board, and it
      is 0 when the colour does not occur. */
  lemma LargestBlobBounds(g: Grid, t: Colour, score: int)
    requires IsSquare(g, |g|) && IsLargestBlob(g, t, score)
    ensures 0 <= score <= |g| * |g|
    ensures (forall c, r :: 0 <= c < |g| && 0 <= r < |g| ==> g[c][r] != t) ==> score == 0
  {
    if exists a :: IsTarget(g, t, a) {
      var a :| IsTarget(g, t, a) && |Component(g, t, a)| == score;
      ComponentAtMost(g, t, a);
      assert g[a.0][a.1] == t;
    }
  }

  /** Two side-adjacent cells of colour t reach each other in one step. */
  lemma ReachStep(g: Grid, t: Colour, a: Cell, b: Cell)
    requires IsTarget(g, t, a) && IsTarget(g, t, b) && Adjacent(a, b)
    ensures Reach(g, t, a, b)
  {
    assert IsPath(g, t, [a, b]);
  }

  /** On a board all of colour t, a cell next to a cell reached from the
      top-left corner is reached from it too. */
  lemma UniformExtend(g: Grid, t: Colour, a: Cell, b: Cell)
    requires IsSquare(g, |g|) && forall a :: InGrid(|g|, a) ==> g[a.0][a.1] == t
    requires InGrid(|g|, a) && InGrid(|g|, b) && Adjacent(a, b)
    requires Reach(g, t, (0, 0), a)
    ensures Reach(g, t, (0, 0), b)
  {
    ReachStep(g, t, a, b);
    ReachTransitive(g, t, (0, 0), a, b);
  }

  /** On a board all of colour t, every cell is reached from the top-left
      corner: down the first column, then along the row. */
  lemma {:induction false} ReachFromCorner(g: Grid, t: Colour, c: int, r: int)
    requires IsSquare(g, |g|) && forall a :: InGrid(|g|, a) ==> g[a.0][a.1] == t
    requires InGrid(|g|, (c, r))
    ensures Reach(g, t, (0, 0), (c, r))
    decreases c + r
  {
    if c > 0 {
      ReachFromCorner(g, t, c - 1, r);
      UniformExtend(g, t, (c - 1, r), (c, r));
    } else if r > 0 {
      ReachFromCorner(g, t, c, r - 1);
      UniformExtend(g, t, (c, r - 1), (c, r));
    } else {
      ReachSelf(g, t, (0, 0));
    }
  }

  /** On a non-empty board all of colour t the single blob is the whole
      board, so the score is the number of cells. */
  lemma UniformBlob(g: Grid, t: Colour, score: int)
    requires |g| >= 1 && IsSquare(g, |g|) && forall a :: InGrid(|g|, a) ==> g[a.0][a.1] == t
    requires IsLargestBlob(g, t, score)
    ensures score == |g| * |g|
  {
    var n := |g|;
    var corner := Component(g, t, (0, 0));
    forall b | b in AllCells(n)
      ensures b in corner
    {
      ReachFromCorner(g, t, b.0, b.1);
    }
    assert corner == AllCells(n);
    ColumnsCard(n, n);
    assert AllCells(n) == Columns(n, n);
    assert IsTarget(g, t, (0, 0));
    var a :| IsTarget(g, t, a) && |Component(g, t, a)| == score;
    ComponentAtMost(g, t, a);
  }
}
