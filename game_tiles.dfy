/** The game's view of a tile (its `ITile`): one of the two tile classes, with
    the calls the game makes on either dispatched on the kind. */
module GameTiles {
  import ErnstTiles
  import HoleTiles

  /** A duration draw that both tile kinds accept: [500, 1500). */
  predicate DurationFits(draw: int) {
    && ErnstTiles.MinDuration <= draw < ErnstTiles.MaxDuration
    && HoleTiles.MinDuration <= draw < HoleTiles.MaxDuration
  }

  datatype Tile = Ernst(ernst: ErnstTiles.ErnstTile) | Hole(hole: HoleTiles.HoleTile)
  {
    /** The object behind the tile. */
    function Obj(): object {
      match this
      case Ernst(e) => e
      case Hole(h) => h
    }

    /** The points a press earns now: the Ernst tile's decaying reward, or the
        hole's fixed cost. */
    function Points(): (r: int)
      reads Obj()
      ensures Ernst? ==> r == ErnstTiles.BasePoints - ernst.elapsed
      ensures Hole? ==> r == HoleTiles.HolePoints
    {
      match this
      case Ernst(e) => e.Points()
      case Hole(h) => h.Points()
    }

    /** Whether a stopwatch measures the player's reaction (holes have none). */
    predicate Running()
      reads Obj()
    {
      Ernst? && ernst.running
    }
  }

  /** The objects behind the tiles of `s`. */
  ghost function Objects(s: seq<Tile>): set<object> {
    set t | t in s :: t.Obj()
  }

  /** `ITile.ShowTile`: reveals the tile with the duration `draw`. An Ernst
      tile restarts its stopwatch, so a press now would earn the full reward. */
  method ShowTile(t: Tile, draw: int)
    requires DurationFits(draw)
    modifies t.Obj()
    ensures t.Ernst? ==> t.ernst.running && t.ernst.elapsed == 0 && t.ernst.duration == draw
    ensures t.Hole? ==> t.hole.duration == draw
    ensures t.Points() == if t.Ernst? then ErnstTiles.BasePoints else HoleTiles.HolePoints
  {
    match t
    case Ernst(e) =>
      var _ := e.ShowTile(draw);
    case Hole(h) =>
      var _ := h.ShowTile(draw);
  }

  /** `ITile.TilePressed`: plays the press animation. The points are frozen:
      they are the same before and after, and no longer change with time. */
  method TilePressed(t: Tile)
    modifies t.Obj()
    ensures t.Points() == old(t.Points())
    ensures !t.Running()
  {
    match t
    case Ernst(e) =>
      var _ := e.TilePressed();
    case Hole(h) =>
      var _ := h.TilePressed();
  }

  /** Lets `ms` milliseconds pass for the tile's stopwatch, if it has one. */
  method Tick(t: Tile, ms: nat)
    modifies t.Obj()
    ensures t.Running() == old(t.Running())
    ensures t.Ernst? ==> t.ernst.elapsed == if t.ernst.running then old(t.ernst.elapsed) + ms else old(t.ernst.elapsed)
    ensures t.Points() == if t.Running() then old(t.Points()) - ms else old(t.Points())
  {
    match t
    case Ernst(e) =>
      e.Tick(ms);
    case Hole(h) =>
  }
}
