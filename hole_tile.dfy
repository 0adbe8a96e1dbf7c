/** The hole tile: the decoy the player should leave alone. Pressing it always
    costs the same, whenever it happens. */
module HoleTiles {

  const MinDuration: int := 500
  const MaxDuration: int := 1500
  /** The fixed cost of pressing a hole. */
  const HolePoints: int := -1000

  /** The two images a hole tile can show. */
  datatype HoleBitmap = Hole | HoleHit

  class HoleTile {
    /** Reveal time in milliseconds, drawn at construction and at every reveal. */
    var duration: int
    var bitmap: HoleBitmap
    const points: int := HolePoints

    /** The duration is always a draw from [MinDuration, MaxDuration). */
    ghost predicate Valid()
      reads this
    {
      MinDuration <= duration < MaxDuration
    }

    /** A fresh hole already has a random duration and shows the hole. */
    constructor (draw: int)
      requires MinDuration <= draw < MaxDuration
      ensures Valid()
      ensures duration == draw && bitmap == Hole
    {
      duration := draw;
      bitmap := Hole;
    }

    /** The cost of pressing the hole. It reads no mutable state, so no
        timing and no press can change it. */
    function Points(): (r: int)
      ensures r == HolePoints && r < 0
    {
      points
    }

    /** Reveals the hole with a fresh random duration; the callback sees the
        current bitmap once. */
    method ShowTile(draw: int) returns (shown: seq<HoleBitmap>)
      requires MinDuration <= draw < MaxDuration
      modifies this
      ensures Valid()
      ensures duration == draw && bitmap == old(bitmap)
      ensures shown == [bitmap]
    {
      duration := draw;
      shown := [bitmap];
    }

    /** The press: the callback sees the struck hole, then the hole again.
        Neither the duration nor the points change. */
    method TilePressed() returns (shown: seq<HoleBitmap>)
      modifies this
      ensures duration == old(duration) && Points() == HolePoints
      ensures Valid() <==> old(Valid())
      ensures shown == [HoleHit, Hole] && bitmap == Hole
    {
      bitmap := HoleHit;
      shown := [bitmap];
      bitmap := Hole;
      shown := shown + [bitmap];
    }
  }
}
