/**
 The x pair (3,4) of the solver is computed as if anchor 3 sat at (0,H) and
 anchor 4 at (W,H), and the y pairs (1,3) and (2,4) as if 3 shared an edge
 with 1. The anchor table places 3 at (W,H) and 4 at (0,H). This module shows
 what that does to exact data, and proves that the pairing matching the
 anchor table recovers the tag's position.
 */
module SolverFinding {
  import opened Wrappers
  import opened Field
  import opened Readings
  import opened Trilateration

  /** The distances a perfect ranging system would report from the tag at `p`, per anchor. */
  function ExactDistances(p: Coordinate, sqrt: SquareRoot): seq<Option<real>> {
    [Some(sqrt(SquaredDistance(p, Anchors[0].position))),
     Some(sqrt(SquaredDistance(p, Anchors[1].position))),
     Some(sqrt(SquaredDistance(p, Anchors[2].position))),
     Some(sqrt(SquaredDistance(p, Anchors[3].position)))]
  }

  predicate Interior(p: Coordinate) {
    0.0 < p.x < Width && 0.0 < p.y < Height
  }

  lemma SumOfSquaresPositive(u: real, v: real)
    requires u != 0.0
    ensures u * u + v * v > 0.0
  {
  }

  /** The exact distance from `p` to a corner it does not share an x with is strictly positive and squares back. */
  lemma ExactDistancePositive(p: Coordinate, a: Coordinate, sqrt: SquareRoot) returns (r: real)
    requires IsSqrt(sqrt)
    requires p.x != a.x
    ensures r == sqrt(SquaredDistance(p, a))
    ensures r > 0.0 && r * r == SquaredDistance(p, a)
  {
    var u, v := p.x - a.x, p.y - a.y;
    SumOfSquaresPositive(u, v);
    var q := SquaredDistance(p, a);
    calc {
      q;
    ==
      u * u + v * v;
    >
      0.0;
    }
    r := sqrt(q);
    assert r * r == q;
  }

  /**
   The four exact distances from an interior point, named by corner: all
   strictly positive, and each squares back to its squared distance.
   */
  lemma ExactCornerDistances(p: Coordinate, sqrt: SquareRoot) returns (r1: real, r2: real, r3: real, r4: real)
    requires IsSqrt(sqrt)
    requires Interior(p)
    ensures ExactDistances(p, sqrt) == [Some(r1), Some(r2), Some(r3), Some(r4)]
    ensures r1 > 0.0 && r2 > 0.0 && r3 > 0.0 && r4 > 0.0
    ensures r1 * r1 == SquaredDistance(p, Coordinate(0.0, 0.0))
    ensures r2 * r2 == SquaredDistance(p, Coordinate(Width, 0.0))
    ensures r3 * r3 == SquaredDistance(p, Coordinate(Width, Height))
    ensures r4 * r4 == SquaredDistance(p, Coordinate(0.0, Height))
  {
    r1 := ExactDistancePositive(p, Coordinate(0.0, 0.0), sqrt);
    r2 := ExactDistancePositive(p, Coordinate(Width, 0.0), sqrt);
    r3 := ExactDistancePositive(p, Coordinate(Width, Height), sqrt);
    r4 := ExactDistancePositive(p, Coordinate(0.0, Height), sqrt);
  }

  /** Two anchors on a horizontal edge, `rb`'s anchor W further along x: the pair gives the tag's x. */
  lemma EdgePairGivesX(ra: real, rb: real, p: Coordinate, y0: real)
    requires ra * ra == SquaredDistance(p, Coordinate(0.0, y0))
    requires rb * rb == SquaredDistance(p, Coordinate(Width, y0))
    ensures XFromPair(ra, rb) == p.x
  {
  }

  /** The same pair with the anchors swapped gives the mirror image W - x. */
  lemma SwappedPairGivesMirrorX(ra: real, rb: real, p: Coordinate, y0: real)
    requires ra * ra == SquaredDistance(p, Coordinate(Width, y0))
    requires rb * rb == SquaredDistance(p, Coordinate(0.0, y0))
    ensures XFromPair(ra, rb) == Width - p.x
  {
  }

  /** Two anchors on a vertical edge, `rb`'s anchor H further along y: the pair gives the tag's y. */
  lemma EdgePairGivesY(ra: real, rb: real, p: Coordinate, x0: real)
    requires ra * ra == SquaredDistance(p, Coordinate(x0, 0.0))
    requires rb * rb == SquaredDistance(p, Coordinate(x0, Height))
    ensures YFromPair(ra, rb) == p.y
  {
  }

  /** The diagonal pairs (1,3) and (2,4) err by opposite amounts, ±W(2x − W)/(2H), so their mean is still y. */
  lemma DiagonalPairsAverageToY(r1: real, r2: real, r3: real, r4: real, p: Coordinate)
    requires r1 * r1 == SquaredDistance(p, Coordinate(0.0, 0.0))
    requires r2 * r2 == SquaredDistance(p, Coordinate(Width, 0.0))
    requires r3 * r3 == SquaredDistance(p, Coordinate(Width, Height))
    requires r4 * r4 == SquaredDistance(p, Coordinate(0.0, Height))
    ensures (YFromPair(r1, r3) + YFromPair(r2, r4)) / 2.0 == p.y
  {
  }

  /**
   As written: with exact distances from all four anchors to an interior tag
   position `p`, the solver always reports x = W/2, wherever the tag is.
   */
  lemma AsWrittenPinsXToCentre(t: Table, p: Coordinate, sqrt: SquareRoot)
    requires IsSqrt(sqrt)
    requires Interior(p)
    requires AnchorDistances(t) == ExactDistances(p, sqrt)
    ensures Solve(t, sqrt).Some?
    ensures Solve(t, sqrt).value.x == Width / 2.0
    ensures p.x != Width / 2.0 ==> Solve(t, sqrt).value.Position() != p
  {
    var r1, r2, r3, r4 := ExactCornerDistances(p, sqrt);
    CountOfFour(Some(r1), Some(r2), Some(r3), Some(r4));
    RawFixAveragesPairs(t);
    EdgePairGivesX(r1, r2, p, 0.0);
    SwappedPairGivesMirrorX(r3, r4, p, Height);
    DiagonalPairsAverageToY(r1, r2, r3, r4, p);
    assert RawFix(t) == Some(Coordinate(Width / 2.0, p.y));
    FixIsClampedRawFix(t, sqrt);
  }

  /** The x estimates with anchors paired along the field's edges: (1,2) on y = 0 and (4,3) on y = H. */
  function XEstimatesCorrected(t: Table): (xs: seq<real>)
    ensures |xs| <= 2
  {
    var r1, r2, r3, r4 := DistanceOf(t, "1"), DistanceOf(t, "2"), DistanceOf(t, "3"), DistanceOf(t, "4");
    (if Truthy(r1) && Truthy(r2) then [XFromPair(Val(r1), Val(r2))] else [])
    + (if Truthy(r4) && Truthy(r3) then [XFromPair(Val(r4), Val(r3))] else [])
  }

  /** The y estimates with anchors paired along the field's edges: (1,4) on x = 0 and (2,3) on x = W. */
  function YEstimatesCorrected(t: Table): (ys: seq<real>)
    ensures |ys| <= 2
  {
    var r1, r2, r3, r4 := DistanceOf(t, "1"), DistanceOf(t, "2"), DistanceOf(t, "3"), DistanceOf(t, "4");
    (if Truthy(r1) && Truthy(r4) then [YFromPair(Val(r1), Val(r4))] else [])
    + (if Truthy(r2) && Truthy(r3) then [YFromPair(Val(r2), Val(r3))] else [])
  }

  function RawFixCorrected(t: Table): Option<Coordinate> {
    var xs, ys := XEstimatesCorrected(t), YEstimatesCorrected(t);
    if |xs| > 0 && |ys| > 0 then Some(Coordinate(Mean(xs), Mean(ys))) else None
  }

  /** The solver with the edge-consistent pairing; gate, clamp and residual as in `Solve`. */
  function SolveCorrected(t: Table, sqrt: SquareRoot): (r: Option<Estimate>)
    ensures r.Some? ==> ValidCount(t) >= 3
    ensures r.Some? ==> InField(r.value.Position()) && r.value.error >= 0.0
  {
    if ValidCount(t) < 3 then None
    else
      match RawFixCorrected(t)
      case None => None
      case Some(raw) => Some(ClampedEstimate(t, raw, sqrt))
  }

  /** Like `Solve`, the corrected solver answers exactly when three or more distances are positive. */
  lemma CorrectedFixIffThreePositive(t: Table, sqrt: SquareRoot)
    ensures SolveCorrected(t, sqrt).Some? <==> ValidCount(t) >= 3
  {
    CountOfFour(DistanceOf(t, "1"), DistanceOf(t, "2"), DistanceOf(t, "3"), DistanceOf(t, "4"));
  }

  /** Exact distances from an interior tag position `p`: the edge-consistent pairs all give back `p`. */
  lemma CorrectedRawFixIsExact(t: Table, p: Coordinate, sqrt: SquareRoot)
    requires IsSqrt(sqrt)
    requires Interior(p)
    requires AnchorDistances(t) == ExactDistances(p, sqrt)
    ensures ValidCount(t) == 4
    ensures RawFixCorrected(t) == Some(p)
  {
    var r1, r2, r3, r4 := ExactCornerDistances(p, sqrt);
    CountOfFour(Some(r1), Some(r2), Some(r3), Some(r4));
    EdgePairGivesX(r1, r2, p, 0.0);
    EdgePairGivesX(r4, r3, p, Height);
    EdgePairGivesY(r1, r4, p, 0.0);
    EdgePairGivesY(r2, r3, p, Width);
    MeanOfTwo(p.x, p.x);
    MeanOfTwo(p.y, p.y);
  }

  /** Exact distances leave no residual at the true position. */
  lemma ExactResidualIsZero(t: Table, p: Coordinate, sqrt: SquareRoot)
    requires IsSqrt(sqrt)
    requires Interior(p)
    requires AnchorDistances(t) == ExactDistances(p, sqrt)
    ensures MeanResidual(t, p, sqrt) == 0.0
  {
    var r1, r2, r3, r4 := ExactCornerDistances(p, sqrt);
    MeanResidualIsAverage(t, p, sqrt);
    assert ResidualOf(t, p, Anchors[0], sqrt) == 0.0;
    assert ResidualOf(t, p, Anchors[1], sqrt) == 0.0;
    assert ResidualOf(t, p, Anchors[2], sqrt) == 0.0;
    assert ResidualOf(t, p, Anchors[3], sqrt) == 0.0;
  }

  /** Exact distances from an interior tag position `p` give back `p`, with zero error. */
  lemma CorrectedRecoversExactFix(t: Table, p: Coordinate, sqrt: SquareRoot)
    requires IsSqrt(sqrt)
    requires Interior(p)
    requires AnchorDistances(t) == ExactDistances(p, sqrt)
    ensures SolveCorrected(t, sqrt) == Some(Estimate(p.x, p.y, 0.0))
  {
    CorrectedRawFixIsExact(t, p, sqrt);
    ExactResidualIsZero(t, p, sqrt);
  }
}
