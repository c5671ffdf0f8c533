/** The players of player.py: locating the block under a point, moves, and
    the human, random and smart players with the state their event handlers
    and move generators update. */
module Players {
  import opened Blocks
  import opened Goals

  // ---------------------------------------------------------------------
  // Locating a block

  /** _get_block: the block of b that includes p, at the requested level,
      or the deepest block including p when the tree is shallower there;
      None when b does not include p. */
  function GetBlock(b: Block, p: Point, level: int): (r: Option<Block>)
    ensures !Contains(b, p) ==> r.None?
    ensures r.Some? ==>
      Contains(r.value, p) && IsSubtree(r.value, b) &&
      (r.value.level == level || |r.value.children| == 0)
    decreases b
  {
    if !Contains(b, p) then None
    else if level == b.level then Some(b)
    else if |b.children| == 0 then Some(b)
    else FirstFound(b.children, p, level)
  }

  /** The loop of _get_block over the children: the first child's answer
      that is not None. */
  function FirstFound(cs: seq<Block>, p: Point, level: int): (r: Option<Block>)
    ensures r.Some? ==>
      Contains(r.value, p) && (r.value.level == level || |r.value.children| == 0) &&
      exists i :: 0 <= i < |cs| && IsSubtree(r.value, cs[i])
    decreases cs
  {
    if cs == [] then None
    else
      var r := GetBlock(cs[0], p, level);
      if r.Some? then r else FirstFound(cs[1..], p, level)
  }

  /** If some child answers, the loop over the children answers. */
  lemma {:induction false} FirstFoundSome(cs: seq<Block>, p: Point, level: int, i: int)
    requires 0 <= i < |cs| && GetBlock(cs[i], p, level).Some?
    ensures FirstFound(cs, p, level).Some?
    decreases i
  {
    if i > 0 && GetBlock(cs[0], p, level).None? {
      FirstFoundSome(cs[1..], p, level, i - 1);
    }
  }

  /** The loop over the children returns the answer of the first child
      that answers. */
  lemma {:induction false} FirstFoundAt(cs: seq<Block>, p: Point, level: int, i: int)
    requires 0 <= i < |cs| && GetBlock(cs[i], p, level).Some?
    requires forall j :: 0 <= j < i ==> GetBlock(cs[j], p, level).None?
    ensures FirstFound(cs, p, level) == GetBlock(cs[i], p, level)
    decreases i
  {
    if i > 0 {
      assert GetBlock(cs[1..][i - 1], p, level) == GetBlock(cs[i], p, level);
      FirstFoundAt(cs[1..], p, level, i - 1);
    }
  }

  /** On a well-formed tree whose quadrants tile their parent, every point
      of the root finds a block, and asking at the root's own level finds
      the root. */
  lemma {:induction false} GetBlockTotal(b: Block, p: Point, level: int)
    requires WellFormed(b) && Tiles(b) && Contains(b, p)
    ensures GetBlock(b, p, level).Some?
    ensures level == b.level ==> GetBlock(b, p, level) == Some(b)
    decreases b
  {
    if level != b.level && |b.children| == 4 {
      var h := b.children[1].size;
      var x, y := b.position.x, b.position.y;
      var i := if p.x < x + h then (if p.y < y + h then 1 else 2)
               else (if p.y < y + h then 0 else 3);
      assert Contains(b.children[i], p);
      GetBlockTotal(b.children[i], p, level);
      FirstFoundSome(b.children, p, level, i);
    }
  }

  /** Asked for a level at or below the block's own, the block found is
      never deeper than the level asked for. */
  lemma {:induction false} GetBlockLevel(b: Block, p: Point, level: int)
    requires WellFormed(b) && b.level <= level
    ensures GetBlock(b, p, level).Some? ==> GetBlock(b, p, level).value.level <= level
    decreases b
  {
    if Contains(b, p) && level != b.level && |b.children| != 0 {
      FirstFoundLevel(b.children, p, level, b.level + 1);
    }
  }

  lemma {:induction false} FirstFoundLevel(cs: seq<Block>, p: Point, level: int, childLevel: int)
    requires childLevel <= level
    requires forall i :: 0 <= i < |cs| ==> WellFormed(cs[i]) && cs[i].level == childLevel
    ensures FirstFound(cs, p, level).Some? ==> FirstFound(cs, p, level).value.level <= level
    decreases cs
  {
    if cs != [] {
      GetBlockLevel(cs[0], p, level);
      FirstFoundLevel(cs[1..], p, level, childLevel);
    }
  }

  // ---------------------------------------------------------------------
  // Moves

  /** An action of the game: PASS, or one of the other actions (rotate,
      swap, smash, paint, combine), given by its name and, for rotations and
      swaps, its direction. */
  datatype Action = Pass | Named(name: string, direction: Option<int>)

  /** A move: an action's name and optional direction, and the block it is
      applied to. */
  datatype Move = Move(action: Action, block: Block)

  /** _create_move: pairs an action with the block it acts on. */
  function CreateMove(action: Action, block: Block): (m: Move)
    ensures m.block == block
  {
    Move(action, block)
  }

  /** A move is the pair of its action and its block, and every move is the
      move made from its own action and block. */
  lemma CreateMoveRoundTrip(action: Action, block: Block, m: Move)
    ensures CreateMove(action, block).action == action
    ensures CreateMove(m.action, m.block) == m
    ensures CreateMove(action, block) == m ==> m.action == action && m.block == block
  {
  }

  // ---------------------------------------------------------------------
  // Events

  /** A key: W, S, or any other key by its code. */
  datatype Key = KeyW | KeyS | KeyCode(code: int)

  /** The pygame events the players react to; every other event is Other. */
  datatype Event = KeyDown(key: Key) | MouseButtonDown(button: int) | Other

  // ---------------------------------------------------------------------
  // Human player

  /** A human player: the level of the block they point at and the action
      they last asked for. */
  class HumanPlayer {
    const id: int
    const goal: Goal
    /** The key bindings of the game (KEY_ACTION). */
    const keyAction: map<Key, Action>
    var level: int
    var desiredAction: Option<Action>

    /** The representation invariant: the level is never negative. */
    ghost predicate Valid()
      reads this
    {
      level >= 0
    }

    constructor (playerId: int, g: Goal, keys: map<Key, Action>)
      ensures Valid()
      ensures id == playerId && goal == g && keyAction == keys
      ensures level == 0 && desiredAction == None
    {
      id := playerId;
      goal := g;
      keyAction := keys;
      level := 0;
      desiredAction := None;
    }

    /** process_event: a bound key sets the desired action; otherwise W
        moves the selection one level up (never above 0), S one level
        down, and both forget the desired action. */
    method ProcessEvent(e: Event)
      requires Valid()
      modifies this
      ensures Valid()
      ensures e.KeyDown? && e.key in keyAction ==>
        desiredAction == Some(keyAction[e.key]) && level == old(level)
      ensures e.KeyDown? && e.key !in keyAction && e.key == KeyW ==>
        desiredAction == None && level == LevelUp(old(level))
      ensures e.KeyDown? && e.key !in keyAction && e.key == KeyS ==>
        desiredAction == None && level == old(level) + 1
      ensures (!e.KeyDown? || (e.key !in keyAction && !e.key.KeyW? && !e.key.KeyS?)) ==>
        desiredAction == old(desiredAction) && level == old(level)
    {
      if e.KeyDown? {
        if e.key in keyAction {
          desiredAction := Some(keyAction[e.key]);
        } else if e.key == KeyW {
          level := LevelUp(level);
          desiredAction := None;
        } else if e.key == KeyS {
          level := level + 1;
          desiredAction := None;
        }
      }
    }

    /** generate_move, with the mouse position as a parameter: the desired
        action on the block under the mouse at the player's level, which
        the player then forgets; None, with nothing changed, when there is
        no such block or no desired action. */
    method GenerateMove(board: Block, mouse: Point) returns (m: Option<Move>)
      requires Valid()
      modifies this
      ensures Valid() && level == old(level)
      ensures m.None? <==> GetBlock(board, mouse, level).None? || old(desiredAction).None?
      ensures m.None? ==> desiredAction == old(desiredAction)
      ensures m.Some? ==>
        m.value == CreateMove(old(desiredAction).value, GetBlock(board, mouse, level).value) &&
        desiredAction == None
    {
      var block := GetBlock(board, mouse, level);
      if block.None? || desiredAction.None? {
        return None;
      }
      m := Some(CreateMove(desiredAction.value, block.value));
      desiredAction := None;
    }
  }

  /** The W key's new level: one up, but never above the top level 0. */
  function LevelUp(level: int): (r: int)
    requires level >= 0
    ensures r >= 0
    ensures level > 0 ==> r == level - 1
    ensures level == 0 ==> r == 0
  {
    if level - 1 > 0 then level - 1 else 0
  }

  // ---------------------------------------------------------------------
  // Random player

  /** A random player: moves only after a left click. */
  class RandomPlayer {
    const id: int
    const goal: Goal
    var proceed: bool

    constructor (playerId: int, g: Goal)
      ensures id == playerId && goal == g && !proceed
    {
      id := playerId;
      goal := g;
      proceed := false;
    }

    /** process_event: a left click lets the player move. */
    method ProcessEvent(e: Event)
      modifies this
      ensures proceed == (old(proceed) || e == MouseButtonDown(1))
    {
      if e.MouseButtonDown? && e.button == 1 {
        proceed := true;
      }
    }

    /** generate_move, with the randomly generated valid move as a
        parameter: None while waiting for a click, and otherwise that move,
        after which the player waits again. */
    method GenerateMove(board: Block, randomMove: Move) returns (m: Option<Move>)
      modifies this
      ensures !old(proceed) ==> m.None? && !proceed
      ensures old(proceed) ==> m == Some(randomMove) && !proceed
    {
      if !proceed {
        return None;
      }
      m := Some(randomMove);
      proceed := false;
    }
  }

  // ---------------------------------------------------------------------
  // Smart player

  /** One trial of the smart player: a valid move and the score of the
      goal on a copy of the board after that move. */
  datatype Trial = Trial(score: int, move: Move)

  /** The best of the original score and the scores of the trials. */
  function Best(ori: int, trials: seq<Trial>): (m: int)
    ensures m >= ori && forall i :: 0 <= i < |trials| ==> trials[i].score <= m
    ensures m == ori || exists i :: 0 <= i < |trials| && trials[i].score == m
  {
    if trials == [] then ori
    else
      var prev := Best(ori, trials[..|trials| - 1]);
      var last := trials[|trials| - 1].score;
      assert forall i :: 0 <= i < |trials| - 1 ==> trials[i] == trials[..|trials| - 1][i];
      if last >= prev then last else prev
  }

  /** The index of the last trial scoring s, or -1 when no trial does. */
  function LastWith(trials: seq<Trial>, s: int): (k: int)
    ensures -1 <= k < |trials|
    ensures k >= 0 ==> trials[k].score == s
    ensures forall j :: k < j < |trials| ==> trials[j].score != s
  {
    if trials == [] then -1
    else if trials[|trials| - 1].score == s then |trials| - 1
    else
      assert forall j :: 0 <= j < |trials| - 1 ==> trials[j] == trials[..|trials| - 1][j];
      LastWith(trials[..|trials| - 1], s)
  }

  /** The move the smart player settles on, given the goal's score ori on
      the board: a pass on the whole board when no trial beats ori, and
      otherwise the move of the last trial reaching the best score. */
  function ChosenMove(ori: int, trials: seq<Trial>, board: Block): (m: Move)
    ensures (forall i :: 0 <= i < |trials| ==> trials[i].score <= ori) ==>
      m == CreateMove(Pass, board)
    ensures (exists i :: 0 <= i < |trials| && trials[i].score > ori) ==>
      exists k :: 0 <= k < |trials| && m == trials[k].move && trials[k].score > ori &&
        (forall j :: 0 <= j < |trials| ==> trials[j].score <= trials[k].score) &&
        (forall j :: k < j < |trials| ==> trials[j].score < trials[k].score)
    ensures (forall i :: 0 <= i < |trials| ==> !trials[i].move.action.Pass?) ==>
      (m.action.Pass? <==> forall i :: 0 <= i < |trials| ==> trials[i].score <= ori)
  {
    var best := Best(ori, trials);
    if best <= ori then CreateMove(Pass, board)
    else trials[LastWith(trials, best)].move
  }

  /** One more trial: the best score and the last trial of each score over
      the first i + 1 trials, from those over the first i. */
  lemma PrefixStep(ori: int, trials: seq<Trial>, i: nat)
    requires i < |trials|
    ensures Best(ori, trials[..i + 1]) ==
      (if trials[i].score >= Best(ori, trials[..i]) then trials[i].score else Best(ori, trials[..i]))
    ensures forall s ::
      LastWith(trials[..i + 1], s) == (if trials[i].score == s then i else LastWith(trials[..i], s))
  {
    var p := trials[..i + 1];
    assert p[..i] == trials[..i] && p[i] == trials[i] && |p| == i + 1;
    forall s
      ensures LastWith(p, s) == (if trials[i].score == s then i else LastWith(trials[..i], s))
    {
    }
  }

  /** The loop of SmartPlayer.generate_move over its trials: every trial's
      move is filed under its score, a later trial replacing an earlier one
      of equal score, while the best score so far is kept; then the player
      passes or plays the move filed under the best score. */
  method SelectMove(ori: int, trials: seq<Trial>, board: Block) returns (m: Move)
    ensures m == ChosenMove(ori, trials, board)
  {
    var cur := ori;
    var scoreDict: map<int, Move> := map[];
    var i := 0;
    while i < |trials|
      invariant 0 <= i <= |trials|
      invariant cur == Best(ori, trials[..i])
      invariant forall s :: s in scoreDict <==> LastWith(trials[..i], s) >= 0
      invariant forall s :: s in scoreDict ==> scoreDict[s] == trials[LastWith(trials[..i], s)].move
    {
      PrefixStep(ori, trials, i);
      var t := trials[i];
      scoreDict := scoreDict[t.score := t.move];
      if t.score >= cur {
        cur := t.score;
      }
      i := i + 1;
    }
    assert trials[..i] == trials;
    if cur <= ori {
      m := CreateMove(Pass, board);
    } else {
      m := scoreDict[cur];
    }
  }

  /** A smart player: moves only after a left click, and then tries
      `difficulty` random moves and keeps the best. */
  class SmartPlayer {
    const id: int
    const goal: Goal
    const difficulty: int
    var proceed: bool

    constructor (playerId: int, g: Goal, d: int)
      requires d > 0
      ensures id == playerId && goal == g && difficulty == d && !proceed
    {
      id := playerId;
      goal := g;
      difficulty := d;
      proceed := false;
    }

    /** process_event: a left click lets the player move. */
    method ProcessEvent(e: Event)
      modifies this
      ensures proceed == (old(proceed) || e == MouseButtonDown(1))
    {
      if e.MouseButtonDown? && e.button == 1 {
        proceed := true;
      }
    }

    /** generate_move, with the `difficulty` random trials as a parameter:
        None while waiting for a click; otherwise the move SelectMove picks
        against the goal's score on the board, after which the player
        waits again. */
    method GenerateMove(board: Block, trials: seq<Trial>) returns (m: Option<Move>)
      requires WellFormed(board) && |trials| == difficulty
      modifies this
      ensures !old(proceed) ==> m.None? && !proceed
      ensures old(proceed) ==> !proceed
      ensures old(proceed) ==>
        exists ori :: GoalScore(goal, board, ori) && m == Some(ChosenMove(ori, trials, board))
    {
      if !proceed {
        return None;
      }
      var ori := Score(goal, board);
      var move := SelectMove(ori, trials, board);
      proceed := false;
      m := Some(move);
    }
  }

  // ---------------------------------------------------------------------
  // Creating the players

  /** A player of any of the three kinds. */
  datatype Player = Human(human: HumanPlayer) | Random(random: RandomPlayer) | Smart(smart: SmartPlayer)

  function Id(p: Player): int {
    match p
    case Human(h) => h.id
    case Random(r) => r.id
    case Smart(s) => s.id
  }

  function GoalOf(p: Player): Goal {
    match p
    case Human(h) => h.goal
    case Random(r) => r.goal
    case Smart(s) => s.goal
  }

  /** The goals of a list of players. */
  function PlayerGoals(players: seq<Player>): (goals: seq<Goal>)
    ensures |goals| == |players| && forall i :: 0 <= i < |players| ==> goals[i] == GoalOf(players[i])
  {
    seq(|players|, i requires 0 <= i < |players| => GoalOf(players[i]))
  }

  /** create_players: numHuman human players, then numRandom random
      players, then one smart player per entry of smartPlayers with that
      difficulty, numbered 0, 1, ... in that order, with goals of one kind
      whose colours are drawn from the palette without replacement. */
  method CreatePlayers(numHuman: nat, numRandom: nat, smartPlayers: seq<int>,
                       palette: seq<Colour>, keys: map<Key, Action>)
    returns (players: seq<Player>)
    requires numHuman + numRandom + |smartPlayers| <= |palette|
    requires forall k :: 0 <= k < |smartPlayers| ==> smartPlayers[k] > 0
    ensures |players| == numHuman + numRandom + |smartPlayers|
    ensures forall i :: 0 <= i < |players| ==> Id(players[i]) == i
    ensures forall i :: 0 <= i < numHuman ==> players[i].Human?
    ensures forall i :: numHuman <= i < numHuman + numRandom ==> players[i].Random?
    ensures forall k :: 0 <= k < |smartPlayers| ==>
      players[numHuman + numRandom + k].Smart? &&
      players[numHuman + numRandom + k].smart.difficulty == smartPlayers[k]
    ensures SameKind(PlayerGoals(players))
    ensures multiset(Colours(PlayerGoals(players))) <= multiset(palette)
    ensures Distinct(palette) ==> Distinct(Colours(PlayerGoals(players)))
  {
    var total := numHuman + numRandom + |smartPlayers|;
    var goals := GenerateGoals(palette, total);
    players := [];
    for i := 0 to numHuman
      invariant |players| == i
      invariant forall j :: 0 <= j < i ==> players[j].Human? && Id(players[j]) == j
      invariant PlayerGoals(players) == goals[..i]
    {
      var h := new HumanPlayer(i, goals[i], keys);
      players := players + [Human(h)];
      assert PlayerGoals(players) == goals[..i + 1];
    }
    for j := 0 to numRandom
      invariant |players| == numHuman + j
      invariant forall i :: 0 <= i < numHuman ==> players[i].Human?
      invariant forall i :: numHuman <= i < numHuman + j ==> players[i].Random?
      invariant forall i :: 0 <= i < |players| ==> Id(players[i]) == i
      invariant PlayerGoals(players) == goals[..numHuman + j]
    {
      var r := new RandomPlayer(numHuman + j, goals[numHuman + j]);
      players := players + [Random(r)];
      assert PlayerGoals(players) == goals[..numHuman + j + 1];
    }
    var base := numHuman + numRandom;
    for k := 0 to |smartPlayers|
      invariant |players| == base + k
      invariant forall i :: 0 <= i < numHuman ==> players[i].Human?
      invariant forall i :: numHuman <= i < base ==> players[i].Random?
      invariant forall i :: base <= i < base + k ==>
        players[i].Smart? && players[i].smart.difficulty == smartPlayers[i - base]
      invariant forall i :: 0 <= i < |players| ==> Id(players[i]) == i
      invariant PlayerGoals(players) == goals[..base + k]
    {
      var s := new SmartPlayer(base + k, goals[base + k], smartPlayers[k]);
      players := players + [Smart(s)];
      assert PlayerGoals(players) == goals[..base + k + 1];
    }
    assert PlayerGoals(players) == goals;
  }
}
