/**
 The tracking field: a `Width` x `Height` rectangle (centimetres) with one
 anchor at each corner, numbered counter-clockwise from the origin.
 */
module Field {

  /** Field size in centimetres. */
  const Width: real := 40.0
  const Height: real := 40.0

  datatype Coordinate = Coordinate(x: real, y: real)

  /** A fixed anchor: its identifier and its position in the field. */
  datatype Anchor = Anchor(id: string, position: Coordinate)

  /** The four anchors, in the order the residual loop visits them. */
  const Anchors: seq<Anchor> := [
    Anchor("1", Coordinate(0.0, 0.0)),
    Anchor("2", Coordinate(Width, 0.0)),
    Anchor("3", Coordinate(Width, Height)),
    Anchor("4", Coordinate(0.0, Height))
  ]

  predicate InField(c: Coordinate) {
    0.0 <= c.x <= Width && 0.0 <= c.y <= Height
  }

  /** `Math.max(lo, Math.min(hi, v))`. */
  function Clamp(v: real, lo: real, hi: real): (r: real)
    requires lo <= hi
    ensures lo <= r <= hi
    ensures lo <= v <= hi ==> r == v
    ensures v < lo ==> r == lo
    ensures hi < v ==> r == hi
  {
    if v < lo then lo else if hi < v then hi else v
  }

  function SquaredDistance(a: Coordinate, b: Coordinate): (d: real)
    ensures d >= 0.0
  {
    var dx := a.x - b.x;
    var dy := a.y - b.y;
    dx * dx + dy * dy
  }

  function Abs(v: real): (r: real)
    ensures r >= 0.0
    ensures r == v || r == -v
  {
    if v < 0.0 then -v else v
  }

  /**
   `Math.sqrt` enters the model as a parameter of this type. Where a proof
   needs it to be the real square root, it requires `IsSqrt`.
   */
  type SquareRoot = real -> real

  ghost predicate IsSqrt(sqrt: SquareRoot) {
    forall v :: v >= 0.0 ==> sqrt(v) >= 0.0 && sqrt(v) * sqrt(v) == v
  }
}
