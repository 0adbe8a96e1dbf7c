/** The rules of one round, stated on values: the constants of the game, the
    inputs the outside world supplies to a round (random choices and the
    player's presses), and the score those inputs earn. The game's methods are
    proved against these functions. */
module Rounds {
  import opened Bags
  import opened GameTiles
  import ErnstTiles
  import HoleTiles

  const NumberOfErnstTiles: nat := 7
  const NumberOfHoleTiles: nat := 3
  /** Tiles per round. */
  const GameLength: nat := NumberOfErnstTiles + NumberOfHoleTiles
  /** The cost of pressing a key that holds no tile. */
  const EmptyKeyPenalty: int := -1000

  /** A key press that arrives `wait` milliseconds after the previous event. */
  datatype Press = Press(wait: nat, key: int)

  /** What the outside world decides in one iteration of the round loop: the
      random key and bag index, the random duration, the presses that arrive
      while the tile is shown, and the keys pressed during the pause after it. */
  datatype Turn = Turn(key: nat, pick: nat, draw: int, presses: seq<Press>, pausePresses: seq<int>)

  /** The hole durations drawn when a round's bag is filled. */
  predicate HoleDrawsFit(draws: seq<int>) {
    && |draws| == NumberOfHoleTiles
    && forall i :: 0 <= i < |draws| ==> HoleTiles.MinDuration <= draws[i] < HoleTiles.MaxDuration
  }

  /** A turn the outside world can deliver on a board of `keyCount` keys: the
      key is on the board and the duration is a valid draw. The presses while
      the tile is shown are not bounded by that duration: the key is cleared
      only after the reveal's device calls, so a slow hit can land after it. */
  predicate TurnFits(turn: Turn, keyCount: nat) {
    && turn.key < keyCount
    && DurationFits(turn.draw)
  }

  /** The time from the reveal to the last press of `ps`. */
  function TotalWait(ps: seq<Press>): nat {
    if ps == [] then 0 else ps[0].wait + TotalWait(ps[1..])
  }

  /** The bag indices of a plan, in order. */
  function Picks(plan: seq<Turn>): (picks: seq<nat>)
    ensures |picks| == |plan|
    ensures forall i :: 0 <= i < |plan| ==> picks[i] == plan[i].pick
  {
    seq(|plan|, i requires 0 <= i < |plan| => plan[i].pick)
  }

  /** The points a press on tile `t` earns `elapsed` milliseconds after the
      reveal: an Ernst tile's reward decays from 1500 by one point per
      millisecond; a hole costs 1000 whenever it is pressed. */
  function PointsAfter(t: Tile, elapsed: nat): int {
    if t.Ernst? then ErnstTiles.BasePoints - elapsed else HoleTiles.HolePoints
  }

  /** The score earned by the presses `ps` while tile `t` is shown on `key`,
      `elapsed` milliseconds after the reveal; `occupied` says whether the tile
      is still on its key. The first press on the occupied key scores the tile
      and empties the key; every other press is a press on an empty key. */
  function RevealScore(t: Tile, key: int, ps: seq<Press>, elapsed: nat, occupied: bool): int {
    if ps == [] then 0
    else
      var at := elapsed + ps[0].wait;
      if occupied && ps[0].key == key then
        PointsAfter(t, at) + RevealScore(t, key, ps[1..], at, false)
      else
        EmptyKeyPenalty + RevealScore(t, key, ps[1..], at, occupied)
  }

  /** The score of one iteration that reveals tile `t`. */
  function TurnScore(t: Tile, turn: Turn): int {
    RevealScore(t, turn.key, turn.presses, 0, true) + EmptyKeyPenalty * |turn.pausePresses|
  }

  /** The score of the iterations that revealed `revealed`, in order. */
  function RoundScore(revealed: seq<Tile>, plan: seq<Turn>): int
    requires |revealed| == |plan|
  {
    if plan == [] then 0
    else
      var n := |plan| - 1;
      RoundScore(revealed[..n], plan[..n]) + TurnScore(revealed[n], plan[n])
  }

  /** Extending a round by one turn adds that turn's score. */
  lemma RoundScoreStep(revealed: seq<Tile>, plan: seq<Turn>, i: nat, t: Tile)
    requires |revealed| == i < |plan|
    ensures RoundScore(revealed + [t], plan[..i + 1]) == RoundScore(revealed, plan[..i]) + TurnScore(t, plan[i])
  {
    assert (revealed + [t])[..i] == revealed && plan[..i + 1][..i] == plan[..i];
  }

  /** Once the tile has been scored (or cleared), every press costs 1000. */
  lemma {:induction false} EmptyKeyPressesArePenalties(t: Tile, key: int, ps: seq<Press>, elapsed: nat)
    ensures RevealScore(t, key, ps, elapsed, false) == EmptyKeyPenalty * |ps|
  {
    if ps != [] {
      EmptyKeyPressesArePenalties(t, key, ps[1..], elapsed + ps[0].wait);
    }
  }

  /** A tile nobody presses earns nothing; every press on another key costs
      1000 (letting a hole expire is free, letting Ernst expire earns nothing). */
  lemma {:induction false} MissedTileScoresOnlyPenalties(t: Tile, key: int, ps: seq<Press>, elapsed: nat)
    requires forall j :: 0 <= j < |ps| ==> ps[j].key != key
    ensures RevealScore(t, key, ps, elapsed, true) == EmptyKeyPenalty * |ps|
  {
    if ps != [] {
      MissedTileScoresOnlyPenalties(t, key, ps[1..], elapsed + ps[0].wait);
    }
  }

  /** A tile is scored exactly once, by the first press on its key, at the
      time of that press; every other press costs 1000, so a tile can never be
      resolved twice. */
  lemma {:induction false} FirstHitScoresTileOnce(t: Tile, key: int, ps: seq<Press>, elapsed: nat, j: nat)
    requires j < |ps| && ps[j].key == key
    requires forall i :: 0 <= i < j ==> ps[i].key != key
    ensures RevealScore(t, key, ps, elapsed, true)
         == PointsAfter(t, elapsed + TotalWait(ps[..j + 1])) + EmptyKeyPenalty * (|ps| - 1)
  {
    var at := elapsed + ps[0].wait;
    if j == 0 {
      assert ps[..1] == [ps[0]];
      EmptyKeyPressesArePenalties(t, key, ps[1..], at);
    } else {
      FirstHitScoresTileOnce(t, key, ps[1..], at, j - 1);
      assert ps[..j + 1] == [ps[0]] + ps[1..][..j];
      assert TotalWait(ps[..j + 1]) == ps[0].wait + TotalWait(ps[1..][..j]);
    }
  }

  /** A round in which nobody presses a key scores nothing. */
  lemma {:induction false} SilentRoundScoresZero(revealed: seq<Tile>, plan: seq<Turn>)
    requires |revealed| == |plan|
    requires forall i :: 0 <= i < |plan| ==> plan[i].presses == [] && plan[i].pausePresses == []
    ensures RoundScore(revealed, plan) == 0
  {
    if plan != [] {
      var n := |plan| - 1;
      SilentRoundScoresZero(revealed[..n], plan[..n]);
    }
  }

  /** The kind of each tile of `s`: true for Ernst, false for a hole. */
  function Kinds(s: seq<Tile>): (k: seq<bool>)
    ensures |k| == |s| && forall i :: 0 <= i < |s| ==> k[i] == s[i].Ernst?
  {
    seq(|s|, i requires 0 <= i < |s| => s[i].Ernst?)
  }

  /** The kinds of a freshly filled bag: seven Ernst tiles, then three holes. */
  function FreshBag(): (k: seq<bool>)
    ensures |k| == GameLength
  {
    seq(GameLength, i => i < NumberOfErnstTiles)
  }

  /** A fresh bag holds seven Ernst tiles and three holes. */
  lemma FreshBagCount()
    ensures multiset(FreshBag())[true] == NumberOfErnstTiles
    ensures multiset(FreshBag())[false] == NumberOfHoleTiles
  {
    var ernst, holes := seq(NumberOfErnstTiles, i => true), seq(NumberOfHoleTiles, i => false);
    assert FreshBag() == ernst + holes;
    ConstantCount(true, NumberOfErnstTiles);
    ConstantCount(false, NumberOfHoleTiles);
  }

  lemma {:induction false} ConstantCount(b: bool, n: nat)
    ensures multiset(seq(n, i => b)) == multiset{}[b := n]
  {
    if n > 0 {
      ConstantCount(b, n - 1);
      assert seq(n, i => b) == seq(n - 1, i => b) + [b];
    }
  }

  /** The number of Ernst tiles in `s`. */
  function ErnstCount(s: seq<Tile>): nat {
    multiset(Kinds(s))[true]
  }

  lemma ErnstCountPush(s: seq<Tile>, t: Tile)
    ensures ErnstCount(s + [t]) == ErnstCount(s) + (if t.Ernst? then 1 else 0)
  {
    assert Kinds(s + [t]) == Kinds(s) + [t.Ernst?];
  }

  lemma KindsRemoveAt(s: seq<Tile>, i: nat)
    requires i < |s|
    ensures Kinds(RemoveAt(s, i)) == RemoveAt(Kinds(s), i)
  {
    var r, k := RemoveAt(s, i), RemoveAt(Kinds(s), i);
    forall j | 0 <= j < |r| ensures Kinds(r)[j] == k[j] {
      if j < i {
        assert r[j] == s[j] && k[j] == Kinds(s)[j];
      } else {
        assert r[j] == s[j + 1] && k[j] == Kinds(s)[j + 1];
      }
    }
  }

  /** Which kinds are drawn, and which are left, depends only on the kinds in
      the bag and on the picks. */
  lemma {:induction false} KindsDraw(s: seq<Tile>, picks: seq<nat>)
    requires PicksFit(|s|, picks)
    ensures Kinds(Draw(s, picks).0) == Draw(Kinds(s), picks).0
    ensures Kinds(Draw(s, picks).1) == Draw(Kinds(s), picks).1
  {
    if picks != [] {
      var n := |picks| - 1;
      var before, kinds := Draw(s, picks[..n]), Draw(Kinds(s), picks[..n]);
      KindsDraw(s, picks[..n]);
      KindsRemoveAt(before.1, picks[n]);
      assert Kinds(before.0 + [before.1[picks[n]]]) == kinds.0 + [kinds.1[picks[n]]];
    }
  }

  /** Drawing moves tiles from the bag to the drawn sequence without changing
      how many of them are Ernst tiles. */
  lemma ErnstCountDraw(s: seq<Tile>, picks: seq<nat>)
    requires PicksFit(|s|, picks)
    ensures ErnstCount(Draw(s, picks).0) + ErnstCount(Draw(s, picks).1) == ErnstCount(s)
  {
    KindsDraw(s, picks);
    DrawKeepsBag(Kinds(s), picks);
  }

  /** The player presses every Ernst tile the moment it appears, leaves every
      hole alone, and never presses anything else; `kinds` says which turns
      reveal Ernst. */
  predicate PerfectPlay(kinds: seq<bool>, plan: seq<Turn>)
    requires |kinds| == |plan|
  {
    forall i :: 0 <= i < |plan| ==>
      && plan[i].pausePresses == []
      && plan[i].presses == (if kinds[i] then [Press(0, plan[i].key)] else [])
  }

  /** A perfect turn earns the full 1500 on an Ernst tile and nothing on a hole. */
  lemma PerfectTurnScore(t: Tile, turn: Turn)
    requires turn.pausePresses == []
    requires turn.presses == if t.Ernst? then [Press(0, turn.key)] else []
    ensures TurnScore(t, turn) == if t.Ernst? then ErnstTiles.BasePoints else 0
  {
    var ps := turn.presses;
    if t.Ernst? {
      assert ps[1..] == [];
      assert RevealScore(t, turn.key, ps, 0, true) == PointsAfter(t, 0) + RevealScore(t, turn.key, [], 0, false);
    }
  }

  /** Perfect play over a round is perfect play over all but its last turn,
      and in its last turn. */
  lemma PerfectPlayPrefix(revealed: seq<Tile>, plan: seq<Turn>)
    requires |revealed| == |plan| > 0 && PerfectPlay(Kinds(revealed), plan)
    ensures PerfectPlay(Kinds(revealed[..|plan| - 1]), plan[..|plan| - 1])
    ensures var n := |plan| - 1;
      && plan[n].pausePresses == []
      && plan[n].presses == if revealed[n].Ernst? then [Press(0, plan[n].key)] else []
  {
    var n := |plan| - 1;
    var front := revealed[..n];
    forall i | 0 <= i < n ensures plan[..n][i] == plan[i] && Kinds(front)[i] == Kinds(revealed)[i] {
      assert front[i] == revealed[i];
    }
    assert Kinds(revealed)[n] == revealed[n].Ernst?;
  }

  /** Perfect play earns the full 1500 for each Ernst tile and nothing else. */
  lemma {:induction false} PerfectRoundScore(revealed: seq<Tile>, plan: seq<Turn>)
    requires |revealed| == |plan| && PerfectPlay(Kinds(revealed), plan)
    ensures RoundScore(revealed, plan) == ErnstTiles.BasePoints * ErnstCount(revealed)
  {
    if plan != [] {
      var n := |plan| - 1;
      var front, last := revealed[..n], revealed[n];
      PerfectPlayPrefix(revealed, plan);
      PerfectRoundScore(front, plan[..n]);
      assert revealed == front + [last];
      ErnstCountPush(front, last);
      PerfectTurnScore(last, plan[n]);
    }
  }

  /** The plan of a whole round on a board of `keyCount` keys: one turn per
      tile, picks that fit the shrinking bag, turns that fit the board. */
  predicate RoundPlanFits(plan: seq<Turn>, keyCount: nat) {
    && |plan| == GameLength
    && PicksFit(GameLength, Picks(plan))
    && forall i :: 0 <= i < |plan| ==> TurnFits(plan[i], keyCount)
  }

  /** A whole round: from a freshly filled bag of 7 Ernst tiles followed by
      3 holes, drawn in any random order, perfect play scores 7 x 1500 = 10500. */
  lemma PerfectFullRound(bag: seq<Tile>, plan: seq<Turn>)
    requires Kinds(bag) == FreshBag()
    requires |plan| == GameLength && PicksFit(GameLength, Picks(plan))
    requires PerfectPlay(Draw(FreshBag(), Picks(plan)).0, plan)
    ensures RoundScore(Draw(bag, Picks(plan)).0, plan) == 10500
  {
    var drawn := Draw(bag, Picks(plan));
    FreshBagCount();
    ErnstCountDraw(bag, Picks(plan));
    KindsDraw(bag, Picks(plan));
    assert drawn.1 == [];
    PerfectRoundScore(drawn.0, plan);
  }
}
