/**
 * The cell and anchor arithmetic of `PlayerController.HasTile`. A tilemap is the set of
 * cells that hold a tile, and its transform is the identity, so local and world
 * coordinates coincide.
 */
module Tiles {
  import opened Geometry

  /** 1 when the player pushes up (the probe then looks one cell higher), else 0. */
  function UpShift(vertical: real): real
  {
    if vertical > 0.0 then 1.0 else 0.0
  }

  /** The cell probed for `target`: the floor of x, and the floor of y shifted up on upward input. */
  function TileCell(target: Vec2, vertical: real): (c: Cell)
    ensures c.x as real <= target.x < c.x as real + 1.0
    ensures c.y as real <= target.y + UpShift(vertical) < c.y as real + 1.0
  {
    Cell(target.x.Floor, (target.y + UpShift(vertical)).Floor)
  }

  /**
   * `HasTile`: whether the probed cell holds a tile, and if so the anchor of that tile,
   * horizontally centred on the cell and level with its bottom edge; `Vector2.zero` otherwise.
   */
  function HasTile(tiles: set<Cell>, target: Vec2, vertical: real): (r: (bool, Vec2))
    ensures r.0 <==> TileCell(target, vertical) in tiles
    ensures !r.0 ==> r.1 == Zero
    ensures r.0 ==> r.1.x - 0.5 <= target.x < r.1.x + 0.5
    ensures r.0 ==> r.1.y <= target.y + UpShift(vertical) < r.1.y + 1.0
    ensures r.0 ==> Cell((r.1.x - 0.5).Floor, r.1.y.Floor) == TileCell(target, vertical)
    // the anchor is the middle of the cell's bottom edge
    ensures r.0 ==> r.1 == Vec2(TileCell(target, vertical).x as real + 0.5, TileCell(target, vertical).y as real)
  {
    var cell := TileCell(target, vertical);
    if cell in tiles then (true, Vec2(cell.x as real + 0.5, cell.y as real))
    else (false, Zero)
  }

  /** Two probes in the same column report the same anchor x. */
  lemma SameColumnSameAnchor(tiles: set<Cell>, a: Vec2, va: real, b: Vec2, vb: real)
    requires a.x.Floor == b.x.Floor
    requires HasTile(tiles, a, va).0 && HasTile(tiles, b, vb).0
    ensures HasTile(tiles, a, va).1.x == HasTile(tiles, b, vb).1.x
  {
  }

  /** A probe at an anchor's own x finds that anchor's column again. */
  lemma AnchorStaysInColumn(tiles: set<Cell>, target: Vec2, vertical: real)
    requires HasTile(tiles, target, vertical).0
    ensures HasTile(tiles, target, vertical).1.x.Floor == target.x.Floor
  {
  }
}
