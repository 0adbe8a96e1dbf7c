/** The Ernst tile: the target the player is meant to whack. Its reward decays
    with the time the player takes, measured by a stopwatch that is restarted
    when the tile is revealed and stopped when it is pressed. */
module ErnstTiles {

  const MinDuration: int := 500
  const MaxDuration: int := 1500
  /** The reward for a press at the very moment of the reveal. */
  const BasePoints: int := 1500

  /** The three images an Ernst tile can show. */
  datatype ErnstBitmap = Ernst | ErnstHammer | ErnstHit

  class ErnstTile {
    /** Reveal time in milliseconds; 0 until the tile is first shown. */
    var duration: int
    /** The stopwatch: milliseconds measured so far, and whether it is running. */
    var elapsed: nat
    var running: bool
    var bitmap: ErnstBitmap

    /** The duration is unset or a draw from [MinDuration, MaxDuration), and a
        running stopwatch belongs to a tile that has been shown. */
    ghost predicate Valid()
      reads this
    {
      && (duration == 0 || MinDuration <= duration < MaxDuration)
      && (running ==> MinDuration <= duration)
    }

    /** A fresh tile shows Ernst, has no duration yet and an idle stopwatch. */
    constructor ()
      ensures Valid()
      ensures bitmap == Ernst && duration == 0
      ensures elapsed == 0 && !running
    {
      duration := 0;
      elapsed, running := 0, false;
      bitmap := Ernst;
    }

    /** The reward for pressing the tile now: 1500 less the stopwatch reading.
        It never exceeds 1500, and it stays positive as long as the press
        falls within the reveal window. */
    function Points(): (r: int)
      reads this
      ensures r == BasePoints - elapsed
      ensures r <= BasePoints
      ensures Valid() && elapsed <= duration ==> r >= 1
    {
      BasePoints - elapsed
    }

    /** Reveals the tile: `draw` is the random duration in [500, 1500) and the
        stopwatch restarts from zero; the callback sees the current bitmap once.
        The wait for `duration` milliseconds is left to the caller's clock. */
    method ShowTile(draw: int) returns (shown: seq<ErnstBitmap>)
      requires MinDuration <= draw < MaxDuration
      modifies this
      ensures Valid()
      ensures duration == draw && bitmap == old(bitmap)
      ensures elapsed == 0 && running
      ensures Points() == BasePoints
      ensures shown == [bitmap]
    {
      duration := draw;
      elapsed, running := 0, true;
      shown := [bitmap];
    }

    /** Lets `ms` milliseconds of real time pass: only a running stopwatch
        advances, so the reward decays by exactly `ms` or not at all. */
    method Tick(ms: nat)
      modifies this
      ensures running == old(running) && duration == old(duration) && bitmap == old(bitmap)
      ensures elapsed == if running then old(elapsed) + ms else old(elapsed)
      ensures Points() == if running then old(Points()) - ms else old(Points())
    {
      if running {
        elapsed := elapsed + ms;
      }
    }

    /** The press: the stopwatch stops (freezing the reward), then the callback
        sees the hammer, the hit, and the hit again. */
    method TilePressed() returns (shown: seq<ErnstBitmap>)
      modifies this
      ensures !running && elapsed == old(elapsed) && duration == old(duration)
      ensures Points() == old(Points())
      ensures old(Valid()) ==> Valid()
      ensures shown == [ErnstHammer, ErnstHit, ErnstHit] && bitmap == ErnstHit
    {
      running := false;
      bitmap := ErnstHammer;
      shown := [bitmap];
      bitmap := ErnstHit;
      shown := shown + [bitmap];
      shown := shown + [bitmap];
    }

    /** The enumerator form of the press animation: it yields the tile three
        times, showing the hammer, the hit and the hit again, and leaves the
        stopwatch alone. */
    method DoTilePressedAsync() returns (yielded: seq<ErnstBitmap>)
      modifies this
      ensures running == old(running) && elapsed == old(elapsed) && duration == old(duration)
      ensures Points() == old(Points())
      ensures yielded == [ErnstHammer, ErnstHit, ErnstHit] && bitmap == ErnstHit
    {
      bitmap := ErnstHammer;
      yielded := [bitmap];
      bitmap := ErnstHit;
      yielded := yielded + [bitmap];
      yielded := yielded + [bitmap];
    }
  }

  /** Once pressed, the reward is frozen: any time that passes afterwards
      leaves it as it was when the stopwatch stopped. */
  method FrozenAfterPress(t: ErnstTile, later: nat) returns (before: int, after: int)
    modifies t
    ensures before == after
    ensures !t.running
  {
    var _ := t.TilePressed();
    before := t.Points();
    t.Tick(later);
    after := t.Points();
  }
}
