/** Plane vectors and integer tile cells shared by the player and the enemy models. */
module Geometry {

  /** A Unity `Vector2` (or the x/y part of a `Vector3`); floats are modelled as reals. */
  datatype Vec2 = Vec2(x: real, y: real)

  /** A `Vector3Int` tile coordinate of a tilemap (the z part is always 0). */
  datatype Cell = Cell(x: int, y: int)

  const Zero: Vec2 := Vec2(0.0, 0.0)

  /** `Mathf.Abs` / `Math.Abs` on a float. */
  function Abs(x: real): (r: real)
    ensures r >= 0.0 && (r == x || r == -x)
  {
    if x < 0.0 then -x else x
  }
}
