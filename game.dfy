/** The game session engine: a phase machine driven by two actors, the key
    handler (press events from the board) and the game loop (the timed
    choreography of each phase), sharing the phase, the score, the progress,
    the bag of tiles still to play and the map from keys to revealed tiles. */
module WhackAnErnst {
  import opened Bags
  import opened GameTiles
  import opened Rounds
  import ErnstTiles
  import HoleTiles

  datatype GameState = Idle | Starting | Active | GameOver

  class Game {
    /** The number of keys on the board. */
    const keyCount: nat
    var state: GameState
    var progress: int
    var score: int
    /** The bag: tiles of the current round not yet played. */
    var tiles: seq<Tile>
    /** The slots: the tile each key currently holds. */
    var currentTiles: map<int, Tile>

    /** Progress stays within a round; at most one key holds a tile, only
        while a round is active, and never a tile still in the bag; the bag
        holds distinct tiles. */
    ghost predicate Valid()
      reads this
    {
      && 0 <= progress <= GameLength
      && (forall k :: k in currentTiles ==> 0 <= k < keyCount)
      && (forall k, k' :: k in currentTiles && k' in currentTiles ==> k == k')
      && (state != Active ==> currentTiles == map[])
      && Distinct(tiles)
      && (forall k :: k in currentTiles ==> currentTiles[k] !in tiles)
    }

    /** An active round has one tile in the bag for each iteration still
        to play, so it ends with the bag empty. */
    ghost predicate RoundConsistent()
      reads this
    {
      state == Active ==> |tiles| + progress == GameLength
    }

    /** The object of the tile that `key` holds, if any. */
    ghost function TileAt(key: int): set<object>
      reads this
    {
      if key in currentTiles then {currentTiles[key].Obj()} else {}
    }

    /** The outside world's inputs for the rest of an active round: one turn
        per tile still to play, bag indices that fit the bag as it shrinks,
        keys on the board and presses within each reveal. */
    ghost predicate PlanFits(plan: seq<Turn>)
      reads this
    {
      && |plan| == GameLength - progress
      && PicksFit(|tiles|, Picks(plan))
      && forall i :: 0 <= i < |plan| ==> TurnFits(plan[i], keyCount)
    }

    /** A new game waits in Idle with nothing scored and nothing to play. */
    constructor (keyCount: nat)
      ensures Valid() && this.keyCount == keyCount
      ensures state == Idle && score == 0 && progress == 0
      ensures tiles == [] && currentTiles == map[]
    {
      this.keyCount := keyCount;
      state := Idle;
      progress, score := 0, 0;
      tiles, currentTiles := [], map[];
    }

    /** The key handler. A release does nothing. A press starts a round from
        Idle, returns to Idle from GameOver, and is ignored while Starting;
        none of these touches the score. While Active it scores the pressed
        key, atomically: the tile it holds earns its points (its stopwatch
        stops first), an empty key costs 1000, and the key is empty after. */
    method KeyStateChanged(key: int, isDown: bool)
      requires Valid()
      modifies this, TileAt(key)
      ensures Valid()
      ensures old(RoundConsistent()) ==> RoundConsistent()
      ensures !isDown ==> unchanged(this) && unchanged(old(TileAt(key)))
      ensures isDown && old(state) != Active ==>
        && state == (match old(state) case Idle => Starting case GameOver => Idle case _ => old(state))
        && score == old(score) && progress == old(progress)
        && tiles == old(tiles) && currentTiles == old(currentTiles)
      ensures isDown && old(state) == Active ==>
        && state == Active && progress == old(progress) && tiles == old(tiles)
        && currentTiles == old(currentTiles) - {key}
        && score == old(score) + (if key in old(currentTiles) then old(currentTiles[key].Points()) else EmptyKeyPenalty)
      ensures isDown && old(state) == Active && key in old(currentTiles) ==>
        && old(currentTiles)[key].Points() == old(currentTiles[key].Points())
        && !old(currentTiles)[key].Running()
    {
      if !isDown {
        return;
      }
      match state {
        case Idle =>
          state := Starting;
        case Active =>
          var pointsScored := 0;
          if key in currentTiles {
            var tile := currentTiles[key];
            TilePressed(tile);
            pointsScored := tile.Points();
          } else {
            pointsScored := EmptyKeyPenalty;
          }
          score := score + pointsScored;
          currentTiles := currentTiles - {key};
        case GameOver =>
          state := Idle;
        case Starting =>
      }
    }

    /** A random key: `choice` is the random source's draw from [0, keyCount). */
    method GetRandomKeyIndex(choice: nat) returns (keyIndex: int)
      requires choice < keyCount
      ensures 0 <= keyIndex < keyCount && keyIndex == choice
    {
      keyIndex := choice;
    }

    /** Draws the tile at the random index `pick` out of the bag: that tile is
        returned and removed, and the rest of the bag keeps its order. */
    method GetRandomGameTile(pick: nat) returns (item: Tile)
      requires Valid() && pick < |tiles|
      modifies this
      ensures Valid()
      ensures item == old(tiles)[pick] && tiles == RemoveAt(old(tiles), pick)
      ensures item !in tiles && |tiles| == |old(tiles)| - 1
      ensures state == old(state) && score == old(score) && progress == old(progress)
      ensures currentTiles == old(currentTiles)
    {
      item := tiles[pick];
      DistinctRemoveFirst(tiles, pick);
      tiles := RemoveFirst(tiles, item);
    }

    /** The loop's Starting step: refills the bag with seven fresh Ernst tiles
        followed by three fresh holes, whose durations are `holeDraws`. */
    method ShowGameStartingScreen(holeDraws: seq<int>)
      requires Valid() && state == Starting && HoleDrawsFit(holeDraws)
      modifies this
      ensures Valid()
      ensures state == old(state) && score == old(score) && progress == old(progress)
      ensures currentTiles == old(currentTiles)
      ensures |tiles| == GameLength && ErnstCount(tiles) == NumberOfErnstTiles
      ensures Kinds(tiles) == FreshBag()
      ensures forall i :: 0 <= i < |tiles| ==> fresh(tiles[i].Obj())
      ensures forall i :: 0 <= i < NumberOfErnstTiles ==>
        tiles[i].Ernst? && !tiles[i].ernst.running && tiles[i].ernst.bitmap == ErnstTiles.Ernst
      ensures forall i :: NumberOfErnstTiles <= i < GameLength ==>
        tiles[i].Hole? && tiles[i].hole.duration == holeDraws[i - NumberOfErnstTiles]
        && tiles[i].hole.bitmap == HoleTiles.Hole
    {
      tiles := [];
      var i := 0;
      while i < NumberOfErnstTiles
        invariant 0 <= i <= NumberOfErnstTiles && |tiles| == i
        invariant state == old(state) && score == old(score) && progress == old(progress)
        invariant currentTiles == old(currentTiles) && currentTiles == map[]
        invariant Distinct(tiles)
        invariant forall j :: 0 <= j < i ==> fresh(tiles[j].Obj())
        invariant forall j :: 0 <= j < i ==>
          tiles[j].Ernst? && !tiles[j].ernst.running && tiles[j].ernst.bitmap == ErnstTiles.Ernst
      {
        var e := new ErnstTiles.ErnstTile();
        tiles := tiles + [Ernst(e)];
        i := i + 1;
      }
      while i < GameLength
        invariant NumberOfErnstTiles <= i <= GameLength && |tiles| == i
        invariant state == old(state) && score == old(score) && progress == old(progress)
        invariant currentTiles == old(currentTiles) && currentTiles == map[]
        invariant Distinct(tiles)
        invariant forall j :: 0 <= j < i ==> fresh(tiles[j].Obj())
        invariant forall j :: 0 <= j < NumberOfErnstTiles ==>
          tiles[j].Ernst? && !tiles[j].ernst.running && tiles[j].ernst.bitmap == ErnstTiles.Ernst
        invariant forall j :: NumberOfErnstTiles <= j < i ==>
          tiles[j].Hole? && tiles[j].hole.duration == holeDraws[j - NumberOfErnstTiles]
          && tiles[j].hole.bitmap == HoleTiles.Hole
      {
        var h := new HoleTiles.HoleTile(holeDraws[i - NumberOfErnstTiles]);
        tiles := tiles + [Hole(h)];
        i := i + 1;
      }
      assert Kinds(tiles) == FreshBag();
      FreshBagCount();
    }

    /** The wait while a revealed tile is shown: the presses of `presses`
        arrive in order, each after its wait, and go to the key handler. */
    method AwaitReveal(tile: Tile, key: int, presses: seq<Press>)
      requires Valid() && state == Active && currentTiles == map[key := tile]
      requires tile.Ernst? ==> tile.ernst.running && tile.ernst.elapsed == 0
      modifies this, tile.Obj()
      ensures Valid() && state == Active && progress == old(progress) && tiles == old(tiles)
      ensures currentTiles == map[] || currentTiles == map[key := tile]
      ensures score == old(score) + RevealScore(tile, key, presses, 0, true)
    {
      var j := 0;
      ghost var at: nat := 0;
      while j < |presses|
        invariant 0 <= j <= |presses|
        invariant Valid() && state == Active && progress == old(progress) && tiles == old(tiles)
        invariant currentTiles == map[] || currentTiles == map[key := tile]
        invariant key in currentTiles && tile.Ernst? ==> tile.ernst.running && tile.ernst.elapsed == at
        invariant score + RevealScore(tile, key, presses[j..], at, key in currentTiles)
               == old(score) + RevealScore(tile, key, presses, 0, true)
      {
        var press := presses[j];
        Tick(tile, press.wait);
        at := at + press.wait;
        ghost var slots := currentTiles;
        KeyStateChanged(press.key, true);
        assert presses[j..][1..] == presses[j + 1..];
        if press.key != key && slots != map[] {
          assert currentTiles == slots by {
            assert map[key := tile] - {press.key} == map[key := tile];
          }
        }
        j := j + 1;
      }
    }

    /** A wait with no tile on the board (the opening second of a round, or
        the pause after a tile is cleared): every press lands on an empty key. */
    method AwaitPause(keys: seq<int>)
      requires Valid() && state == Active && currentTiles == map[]
      modifies this
      ensures Valid() && state == Active && currentTiles == map[]
      ensures progress == old(progress) && tiles == old(tiles)
      ensures score == old(score) + EmptyKeyPenalty * |keys|
    {
      var j := 0;
      while j < |keys|
        invariant 0 <= j <= |keys|
        invariant Valid() && state == Active && currentTiles == map[]
        invariant progress == old(progress) && tiles == old(tiles)
        invariant score == old(score) + EmptyKeyPenalty * j
      {
        KeyStateChanged(keys[j], true);
        j := j + 1;
      }
    }

    /** One iteration of the round loop: puts the tile the random index
        `turn.pick` draws from the bag on the random key `turn.key`, reveals it
        for `turn.draw` milliseconds while the turn's presses arrive, clears the
        key, waits out the pause and counts the tile. The score rises by
        exactly what the turn's presses earn against that tile. */
    method PlayTurn(turn: Turn) returns (gameTile: Tile)
      requires Valid() && state == Active && currentTiles == map[]
      requires progress < GameLength && turn.pick < |tiles| && TurnFits(turn, keyCount)
      modifies this, Objects(tiles)
      ensures Valid() && state == Active && currentTiles == map[]
      ensures progress == old(progress) + 1
      ensures gameTile == old(tiles)[turn.pick] && tiles == RemoveAt(old(tiles), turn.pick)
      ensures score == old(score) + TurnScore(gameTile, turn)
    {
      var keyIndex := GetRandomKeyIndex(turn.key);
      gameTile := GetRandomGameTile(turn.pick);
      assert gameTile.Obj() in old(Objects(tiles));
      currentTiles := currentTiles[keyIndex := gameTile];
      ShowTile(gameTile, turn.draw);
      AwaitReveal(gameTile, keyIndex, turn.presses);
      currentTiles := currentTiles - {keyIndex};
      AwaitPause(turn.pausePresses);
      progress := progress + 1;
    }

    /** The loop's Active step: the opening second on the bare playfield,
        during which the presses `opening` arrive, then one iteration per tile
        still to play. The round ends in GameOver with the whole round
        counted, the tiles revealed in the order the random picks draw them
        from the bag, what the picks leave in the bag, and the score raised by
        exactly what the presses earn. */
    method PlayActiveRound(opening: seq<int>, plan: seq<Turn>) returns (ghost revealed: seq<Tile>)
      requires Valid() && state == Active && currentTiles == map[]
      requires PlanFits(plan)
      modifies this, Objects(tiles)
      ensures Valid() && state == GameOver && progress == GameLength && currentTiles == map[]
      ensures |revealed| == |plan|
      ensures revealed == Draw(old(tiles), Picks(plan)).0
      ensures tiles == Draw(old(tiles), Picks(plan)).1
      ensures score == old(score) + EmptyKeyPenalty * |opening| + RoundScore(revealed, plan)
    {
      AwaitPause(opening);
      ghost var start := score;
      ghost var bag, picks := tiles, Picks(plan);
      revealed := [];
      var i := 0;
      while progress < GameLength
        invariant Valid() && state == Active && currentTiles == map[]
        invariant old(progress) <= progress <= GameLength
        invariant i == progress - old(progress) && |plan| == GameLength - old(progress)
        invariant PicksFit(|bag|, picks) && |picks| == |plan|
        invariant forall j :: 0 <= j < |plan| ==> picks[j] == plan[j].pick && TurnFits(plan[j], keyCount)
        invariant (revealed, tiles) == Draw(bag, picks[..i])
        invariant score == start + RoundScore(revealed, plan[..i])
        invariant Objects(tiles) <= Objects(bag)
        decreases GameLength - progress
      {
        ghost var before := tiles;
        var gameTile := PlayTurn(plan[i]);
        DrawNext(bag, picks, i);
        ObjectsRemoveAt(before, plan[i].pick);
        RoundScoreStep(revealed, plan, i, gameTile);
        revealed := revealed + [gameTile];
        i := i + 1;
      }
      assert picks[..i] == picks && plan[..i] == plan;
      state := GameOver;
    }

    /** One pass of the game loop, by phase. Idle resets score and progress;
        Starting fills the bag with 7 Ernst tiles and 3 holes and moves on to
        Active; Active plays the round to GameOver; GameOver changes nothing
        (only a key press leaves it). */
    method GameLoop(holeDraws: seq<int>, opening: seq<int>, plan: seq<Turn>) returns (ghost revealed: seq<Tile>)
      requires Valid()
      requires state == Starting ==> HoleDrawsFit(holeDraws)
      requires state == Active ==> currentTiles == map[] && PlanFits(plan)
      modifies this, Objects(tiles)
      ensures Valid()
      ensures old(state) == Idle ==>
        && state == Idle && score == 0 && progress == 0
        && tiles == old(tiles) && currentTiles == old(currentTiles)
      ensures old(state) == Starting ==>
        && state == Active && score == old(score) && progress == old(progress)
        && currentTiles == old(currentTiles)
        && |tiles| == GameLength && ErnstCount(tiles) == NumberOfErnstTiles
        && Kinds(tiles) == FreshBag()
        && forall i :: 0 <= i < |tiles| ==> fresh(tiles[i].Obj())
      ensures old(state) == Active ==>
        && state == GameOver && progress == GameLength && currentTiles == map[]
        && |revealed| == |plan|
        && revealed == Draw(old(tiles), Picks(plan)).0
        && tiles == Draw(old(tiles), Picks(plan)).1
        && score == old(score) + EmptyKeyPenalty * |opening| + RoundScore(revealed, plan)
        && (old(RoundConsistent()) ==> tiles == [])
      ensures old(state) == GameOver ==> unchanged(this)
    {
      revealed := [];
      match state {
        case Idle =>
          score := 0;
          progress := 0;
        case Starting =>
          ShowGameStartingScreen(holeDraws);
          state := Active;
        case Active =>
          revealed := PlayActiveRound(opening, plan);
        case GameOver =>
      }
    }

    /** The game loop as evidently intended: the Starting step also resets
        score and progress, so every round starts from zero and plays the
        whole bag, however the key presses interleave with the loop. Its
        other phases are those of `GameLoop`. */
    method GameLoopResetting(holeDraws: seq<int>, opening: seq<int>, plan: seq<Turn>) returns (ghost revealed: seq<Tile>)
      requires Valid() && RoundConsistent()
      requires state == Starting ==> HoleDrawsFit(holeDraws)
      requires state == Active ==> currentTiles == map[] && PlanFits(plan)
      modifies this, Objects(tiles)
      ensures Valid() && RoundConsistent()
      ensures old(state) == Idle ==>
        && state == Idle && score == 0 && progress == 0
        && tiles == old(tiles) && currentTiles == old(currentTiles)
      ensures old(state) == Starting ==>
        && state == Active && score == 0 && progress == 0
        && currentTiles == old(currentTiles)
        && |tiles| == GameLength && ErnstCount(tiles) == NumberOfErnstTiles
        && Kinds(tiles) == FreshBag()
        && forall i :: 0 <= i < |tiles| ==> fresh(tiles[i].Obj())
      ensures old(state) == Active ==>
        && state == GameOver && progress == GameLength && currentTiles == map[] && tiles == []
        && |revealed| == |plan|
        && revealed == Draw(old(tiles), Picks(plan)).0
        && score == old(score) + EmptyKeyPenalty * |opening| + RoundScore(revealed, plan)
      ensures old(state) == GameOver ==> unchanged(this)
    {
      revealed := [];
      match state {
        case Idle =>
          score := 0;
          progress := 0;
        case Starting =>
          score, progress := 0, 0;
          ShowGameStartingScreen(holeDraws);
          state := Active;
        case Active =>
          revealed := PlayActiveRound(opening, plan);
        case GameOver =>
      }
    }
  }

  /** Drawing a tile out of the bag adds no object to the bag. */
  lemma ObjectsRemoveAt(s: seq<Tile>, i: nat)
    requires i < |s|
    ensures Objects(RemoveAt(s, i)) <= Objects(s)
  {
    forall o | o in Objects(RemoveAt(s, i))
      ensures o in Objects(s)
    {
      var t :| t in RemoveAt(s, i) && t.Obj() == o;
      RemoveAtKeeps(s, i);
      assert t in multiset(RemoveAt(s, i));
    }
  }
}
