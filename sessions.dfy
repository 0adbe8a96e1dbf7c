/** Whole sessions on a fresh game: the key handler and the game loop driven
    in the order a player and the loop's own pacing can produce. */
module Sessions {
  import opened Bags
  import opened GameTiles
  import opened Rounds
  import opened WhackAnErnst

  /** A first round with the loop as written: a press on a new game starts
      it, and it ends in GameOver with every tile played and the bag empty. */
  method FirstRound(keyCount: nat, holeDraws: seq<int>, plan: seq<Turn>) returns (g: Game)
    requires HoleDrawsFit(holeDraws) && RoundPlanFits(plan, keyCount)
    ensures fresh(g) && g.Valid() && g.keyCount == keyCount
    ensures g.state == GameOver && g.progress == GameLength && g.tiles == [] && g.currentTiles == map[]
  {
    g := new Game(keyCount);
    g.KeyStateChanged(0, true);
    ghost var revealed := g.GameLoop(holeDraws, [], plan);
    revealed := g.GameLoop(holeDraws, [], plan);
  }

  /** The player presses twice in quick succession on the game-over screen:
      the first press returns to Idle and the second starts a new round
      before the loop has run its Idle step. With the loop as written, the
      new round starts with its progress already at the end and a full bag:
      it plays no tile at all, and ends at once in GameOver with the previous
      round's score and all ten tiles still in the bag. */
  method SkippedReset(keyCount: nat, holeDraws: seq<int>, plan: seq<Turn>)
    returns (firstScore: int, startProgress: int, bagSize: int, secondScore: int, over: bool, unplayed: int)
    requires keyCount > 0 && HoleDrawsFit(holeDraws) && RoundPlanFits(plan, keyCount)
    ensures startProgress == GameLength && bagSize == GameLength
    ensures secondScore == firstScore && over && unplayed == GameLength
  {
    var g := FirstRound(keyCount, holeDraws, plan);
    firstScore := g.score;
    g.KeyStateChanged(0, true);
    g.KeyStateChanged(0, true);
    ghost var revealed := g.GameLoop(holeDraws, [], []);
    startProgress, bagSize := g.progress, |g.tiles|;
    revealed := g.GameLoop(holeDraws, [], []);
    secondScore, over, unplayed := g.score, g.state == GameOver, |g.tiles|;
  }

  /** The same presses with the corrected loop: the second round starts from
      zero with a full bag, plays all ten tiles, and scores exactly what its
      own turns earn. */
  method ResetBeforeRound(keyCount: nat, holeDraws: seq<int>, plan: seq<Turn>, again: seq<Turn>)
    returns (startScore: int, startProgress: int, bagSize: int, endProgress: int, bagLeft: int)
    requires keyCount > 0 && HoleDrawsFit(holeDraws)
    requires RoundPlanFits(plan, keyCount) && RoundPlanFits(again, keyCount)
    ensures startScore == 0 && startProgress == 0 && bagSize == GameLength
    ensures endProgress == GameLength && bagLeft == 0
  {
    var g := new Game(keyCount);
    g.KeyStateChanged(0, true);
    ghost var revealed := g.GameLoopResetting(holeDraws, [], plan);
    revealed := g.GameLoopResetting(holeDraws, [], plan);
    g.KeyStateChanged(0, true);
    g.KeyStateChanged(0, true);
    revealed := g.GameLoopResetting(holeDraws, [], again);
    startScore, startProgress, bagSize := g.score, g.progress, |g.tiles|;
    revealed := g.GameLoopResetting(holeDraws, [], again);
    endProgress, bagLeft := g.progress, |g.tiles|;
  }

  /** Power-on to the first round: the loop's Idle step, the player's first
      press, and the loop's Starting step leave a new game Active at score 0
      and progress 0 with a freshly filled bag. */
  method NewRound(keyCount: nat, holeDraws: seq<int>) returns (g: Game)
    requires HoleDrawsFit(holeDraws)
    ensures fresh(g) && g.Valid() && g.RoundConsistent() && g.keyCount == keyCount
    ensures g.state == Active && g.score == 0 && g.progress == 0 && g.currentTiles == map[]
    ensures Kinds(g.tiles) == FreshBag()
    ensures forall i :: 0 <= i < |g.tiles| ==> fresh(g.tiles[i].Obj())
  {
    g := new Game(keyCount);
    ghost var revealed := g.GameLoop(holeDraws, [], []);
    g.KeyStateChanged(0, true);
    revealed := g.GameLoop(holeDraws, [], []);
  }

  /** A whole game from power-on: one press starts it and the player then
      hits every Ernst tile the moment it appears and nothing else. Whatever
      keys, durations and draw order the random source chooses, the round
      scores 7 x 1500 = 10500 and ends in GameOver. */
  method PerfectGame(keyCount: nat, holeDraws: seq<int>, plan: seq<Turn>) returns (score: int, over: bool)
    requires keyCount > 0 && HoleDrawsFit(holeDraws) && RoundPlanFits(plan, keyCount)
    requires PerfectPlay(Draw(FreshBag(), Picks(plan)).0, plan)
    ensures score == 10500 && over
  {
    var g := NewRound(keyCount, holeDraws);
    ghost var bag := g.tiles;
    ghost var revealed := g.GameLoop(holeDraws, [], plan);
    PerfectFullRound(bag, plan);
    score, over := g.score, g.state == GameOver;
  }
}
