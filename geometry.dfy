/** Plain vectors of the game world. Coordinates are reals: positions are only
    copied, offset and clamped here, never normalised. */
module Geometry {

  datatype Vec2 = Vec2(x: real, y: real)

  datatype Vec3 = Vec3(x: real, y: real, z: real) {
    /** The `truncate` of a 3-vector: drop the z component. */
    function Truncate(): (r: Vec2)
      ensures r.x == x && r.y == y
    {
      Vec2(x, y)
    }
  }

  function Abs(v: real): real
  {
    if v < 0.0 then -v else v
  }

  /** `f32::clamp`: the value pulled into `[lo, hi]`. The source panics when
      `lo > hi`, so that case is excluded. */
  function Clamp(v: real, lo: real, hi: real): (r: real)
    requires lo <= hi
    ensures lo <= r <= hi
    ensures lo <= v <= hi ==> r == v
    ensures r != v ==> (v < lo && r == lo) || (hi < v && r == hi)
  {
    if v < lo then lo else if hi < v then hi else v
  }
}
