/**
 The position solver: from the latest reading per anchor to a clamped 2D
 fix and its mean absolute residual, or no fix.
 */
module Trilateration {
  import opened Wrappers
  import opened Field
  import opened Readings

  /** A fix: a position and the mean absolute residual of the readings against it. */
  datatype Estimate = Estimate(x: real, y: real, error: real) {
    function Position(): Coordinate {
      Coordinate(x, y)
    }
  }

  /** The distances the table holds for the given anchors, in order. */
  function Distances(t: Table, anchors: seq<Anchor>): (ds: seq<Option<real>>)
    ensures |ds| == |anchors|
    ensures forall i :: 0 <= i < |anchors| ==> ds[i] == DistanceOf(t, anchors[i].id)
  {
    if anchors == [] then [] else [DistanceOf(t, anchors[0].id)] + Distances(t, anchors[1..])
  }

  /** `r1`..`r4` of the solver: the distances of anchors "1".."4". */
  function AnchorDistances(t: Table): (ds: seq<Option<real>>)
    ensures ds == Distances(t, Anchors)
  {
    [DistanceOf(t, "1"), DistanceOf(t, "2"), DistanceOf(t, "3"), DistanceOf(t, "4")]
  }

  /** How many of `ds` are present and strictly positive (`filter(...).length`). */
  function CountPositive(ds: seq<Option<real>>): (n: nat)
    ensures n <= |ds|
    ensures n == 0 <==> forall i :: 0 <= i < |ds| ==> !Positive(ds[i])
    ensures n == |ds| <==> forall i :: 0 <= i < |ds| ==> Positive(ds[i])
  {
    if ds == [] then 0
    else
      var rest := CountPositive(ds[1..]);
      assert forall i :: 1 <= i < |ds| ==> ds[i] == ds[1..][i - 1];
      (if Positive(ds[0]) then 1 else 0) + rest
  }

  /** The number of anchors "1".."4" whose reading has a strictly positive distance. */
  function ValidCount(t: Table): nat {
    CountPositive(AnchorDistances(t))
  }

  /** Circle intersection along the x axis: `(ra² - rb² + W²) / (2W)`. */
  function XFromPair(ra: real, rb: real): real {
    (ra * ra - rb * rb + Width * Width) / (2.0 * Width)
  }

  /** Circle intersection along the y axis: `(ra² - rb² + H²) / (2H)`. */
  function YFromPair(ra: real, rb: real): real {
    (ra * ra - rb * rb + Height * Height) / (2.0 * Height)
  }

  /** The x estimates: pair (1,2) and pair (3,4), each when both distances are truthy. */
  function XEstimates(t: Table): (xs: seq<real>)
    ensures |xs| <= 2
    ensures |xs| > 0 <==>
      (Truthy(DistanceOf(t, "1")) && Truthy(DistanceOf(t, "2"))) || (Truthy(DistanceOf(t, "3")) && Truthy(DistanceOf(t, "4")))
    ensures |xs| == 2 <==>
      Truthy(DistanceOf(t, "1")) && Truthy(DistanceOf(t, "2")) && Truthy(DistanceOf(t, "3")) && Truthy(DistanceOf(t, "4"))
  {
    var r1, r2, r3, r4 := DistanceOf(t, "1"), DistanceOf(t, "2"), DistanceOf(t, "3"), DistanceOf(t, "4");
    (if Truthy(r1) && Truthy(r2) then [XFromPair(Val(r1), Val(r2))] else [])
    + (if Truthy(r3) && Truthy(r4) then [XFromPair(Val(r3), Val(r4))] else [])
  }

  /** The y estimates: pair (1,3) and pair (2,4), each when both distances are truthy. */
  function YEstimates(t: Table): (ys: seq<real>)
    ensures |ys| <= 2
    ensures |ys| > 0 <==>
      (Truthy(DistanceOf(t, "1")) && Truthy(DistanceOf(t, "3"))) || (Truthy(DistanceOf(t, "2")) && Truthy(DistanceOf(t, "4")))
    ensures |ys| == 2 <==>
      Truthy(DistanceOf(t, "1")) && Truthy(DistanceOf(t, "2")) && Truthy(DistanceOf(t, "3")) && Truthy(DistanceOf(t, "4"))
  {
    var r1, r2, r3, r4 := DistanceOf(t, "1"), DistanceOf(t, "2"), DistanceOf(t, "3"), DistanceOf(t, "4");
    (if Truthy(r1) && Truthy(r3) then [YFromPair(Val(r1), Val(r3))] else [])
    + (if Truthy(r2) && Truthy(r4) then [YFromPair(Val(r2), Val(r4))] else [])
  }

  function Sum(s: seq<real>): (r: real)
    ensures (forall i :: 0 <= i < |s| ==> s[i] >= 0.0) ==> r >= 0.0
  {
    if s == [] then 0.0
    else
      assert forall i :: 0 <= i < |s| - 1 ==> s[1..][i] == s[i + 1];
      s[0] + Sum(s[1..])
  }

  function Mean(s: seq<real>): real
    requires |s| > 0
  {
    Sum(s) / (|s| as real)
  }

  /**
   The unclamped position: the per-axis mean of the pair estimates when both
   axes have one, else the fallback on anchors 1, 2, 3, else no fix.
   */
  function RawFix(t: Table): (r: Option<Coordinate>)
    // the fallback is dead code: a raw fix exists exactly when both axes have a pair estimate, and it is their means
    ensures r.Some? <==> |XEstimates(t)| > 0 && |YEstimates(t)| > 0
    ensures r.Some? ==> r.value == Coordinate(Mean(XEstimates(t)), Mean(YEstimates(t)))
  {
    var xs, ys := XEstimates(t), YEstimates(t);
    if |xs| > 0 && |ys| > 0 then
      Some(Coordinate(Mean(xs), Mean(ys)))
    else
      var r1, r2, r3 := DistanceOf(t, "1"), DistanceOf(t, "2"), DistanceOf(t, "3");
      if Truthy(r1) && Truthy(r2) && Truthy(r3) then
        Some(Coordinate(XFromPair(Val(r1), Val(r2)), YFromPair(Val(r1), Val(r3))))
      else
        None
  }

  /** `|sqrt(dx² + dy²) - d|` of one reading against the position `c`. */
  function Residual(c: Coordinate, a: Anchor, d: real, sqrt: SquareRoot): (e: real)
    ensures e >= 0.0
  {
    Abs(sqrt(SquaredDistance(c, a.position)) - d)
  }

  /** The residuals of the anchors whose reading is strictly positive, in anchor order. */
  function ResidualTerms(t: Table, c: Coordinate, anchors: seq<Anchor>, sqrt: SquareRoot): (terms: seq<real>)
    ensures |terms| == CountPositive(Distances(t, anchors))
    ensures forall i :: 0 <= i < |terms| ==> terms[i] >= 0.0
  {
    if anchors == [] then []
    else
      var d := DistanceOf(t, anchors[0].id);
      var rest := ResidualTerms(t, c, anchors[1..], sqrt);
      assert Distances(t, anchors)[1..] == Distances(t, anchors[1..]);
      if Positive(d) then [Residual(c, anchors[0], d.value, sqrt)] + rest else rest
  }

  /** The mean absolute residual over the positive readings; 0 when there are none. */
  function MeanResidual(t: Table, c: Coordinate, sqrt: SquareRoot): (e: real)
    ensures e >= 0.0
  {
    var terms := ResidualTerms(t, c, Anchors, sqrt);
    if |terms| > 0 then Sum(terms) / (|terms| as real) else 0.0
  }

  /** The fix for an unclamped position: clamped into the field, with the mean residual there. */
  function ClampedEstimate(t: Table, raw: Coordinate, sqrt: SquareRoot): (e: Estimate)
    ensures InField(e.Position()) && e.error >= 0.0
    ensures InField(raw) ==> e.Position() == raw
  {
    var c := Coordinate(Clamp(raw.x, 0.0, Width), Clamp(raw.y, 0.0, Height));
    Estimate(c.x, c.y, MeanResidual(t, c, sqrt))
  }

  /** `calculatePosition`, with `Math.sqrt` passed in as `sqrt`. */
  function Solve(t: Table, sqrt: SquareRoot): (r: Option<Estimate>)
    ensures r.Some? ==> ValidCount(t) >= 3
    ensures r.Some? ==> InField(r.value.Position())
    ensures r.Some? ==> r.value.error >= 0.0
  {
    if ValidCount(t) < 3 then None
    else
      match RawFix(t)
      case None => None
      case Some(raw) => Some(ClampedEstimate(t, raw, sqrt))
  }

  /*** Properties of the solver ***/

  lemma CountOfFour(a: Option<real>, b: Option<real>, c: Option<real>, d: Option<real>)
    ensures CountPositive([a, b, c, d])
      == (if Positive(a) then 1 else 0) + (if Positive(b) then 1 else 0)
       + (if Positive(c) then 1 else 0) + (if Positive(d) then 1 else 0)
  {
    assert [a, b, c, d][1..] == [b, c, d];
    assert [b, c, d][1..] == [c, d];
    assert [c, d][1..] == [d];
    assert [d][1..] == [];
    assert CountPositive([d]) == (if Positive(d) then 1 else 0) + CountPositive([]);
    assert CountPositive([c, d]) == (if Positive(c) then 1 else 0) + CountPositive([d]);
    assert CountPositive([b, c, d]) == (if Positive(b) then 1 else 0) + CountPositive([c, d]);
  }

  /** Three strictly positive distances always give an x pair and a y pair. */
  lemma ThreePositiveGiveBothAxes(t: Table)
    requires ValidCount(t) >= 3
    ensures |XEstimates(t)| > 0 && |YEstimates(t)| > 0
  {
    CountOfFour(DistanceOf(t, "1"), DistanceOf(t, "2"), DistanceOf(t, "3"), DistanceOf(t, "4"));
  }

  /**
   The fallback on anchors 1, 2, 3 never produces the fix: whenever its guard
   holds, both axes already have a pair estimate.
   */
  lemma FallbackNeverFires(t: Table)
    ensures Truthy(DistanceOf(t, "1")) && Truthy(DistanceOf(t, "2")) && Truthy(DistanceOf(t, "3"))
            ==> |XEstimates(t)| > 0 && |YEstimates(t)| > 0
    ensures RawFix(t).Some? <==> |XEstimates(t)| > 0 && |YEstimates(t)| > 0
  {
  }

  /** The solver returns a fix exactly when at least three of anchors "1".."4" report a positive distance. */
  lemma FixIffThreePositive(t: Table, sqrt: SquareRoot)
    ensures Solve(t, sqrt).Some? <==> ValidCount(t) >= 3
  {
    if ValidCount(t) >= 3 {
      ThreePositiveGiveBothAxes(t);
    }
  }

  lemma MeanOfOne(a: real)
    ensures Mean([a]) == a
  {
    assert [a][1..] == [];
    assert Sum([a]) == a + Sum([]);
  }

  lemma MeanOfTwo(a: real, b: real)
    ensures Mean([a, b]) == (a + b) / 2.0
  {
    assert [a, b][1..] == [b];
    assert [b][1..] == [];
    assert Sum([b]) == b + Sum([]);
    assert Sum([a, b]) == a + Sum([b]);
  }

  /**
   Before clamping, each axis is the arithmetic mean of the pair estimates
   whose two distances are truthy: both pairs averaged, or the single one.
   */
  lemma RawFixAveragesPairs(t: Table)
    requires ValidCount(t) >= 3
    ensures RawFix(t).Some?
    ensures
      var r1, r2, r3, r4 := DistanceOf(t, "1"), DistanceOf(t, "2"), DistanceOf(t, "3"), DistanceOf(t, "4");
      var x12, x34 := XFromPair(Val(r1), Val(r2)), XFromPair(Val(r3), Val(r4));
      var y13, y24 := YFromPair(Val(r1), Val(r3)), YFromPair(Val(r2), Val(r4));
      var c := RawFix(t).value;
      && (Truthy(r1) && Truthy(r2) && Truthy(r3) && Truthy(r4) ==> c.x == (x12 + x34) / 2.0)
      && (Truthy(r1) && Truthy(r2) && !(Truthy(r3) && Truthy(r4)) ==> c.x == x12)
      && (!(Truthy(r1) && Truthy(r2)) && Truthy(r3) && Truthy(r4) ==> c.x == x34)
      && (Truthy(r1) && Truthy(r3) && Truthy(r2) && Truthy(r4) ==> c.y == (y13 + y24) / 2.0)
      && (Truthy(r1) && Truthy(r3) && !(Truthy(r2) && Truthy(r4)) ==> c.y == y13)
      && (!(Truthy(r1) && Truthy(r3)) && Truthy(r2) && Truthy(r4) ==> c.y == y24)
  {
    ThreePositiveGiveBothAxes(t);
    var r1, r2, r3, r4 := DistanceOf(t, "1"), DistanceOf(t, "2"), DistanceOf(t, "3"), DistanceOf(t, "4");
    MeanOfOne(XFromPair(Val(r1), Val(r2)));
    MeanOfOne(XFromPair(Val(r3), Val(r4)));
    MeanOfTwo(XFromPair(Val(r1), Val(r2)), XFromPair(Val(r3), Val(r4)));
    MeanOfOne(YFromPair(Val(r1), Val(r3)));
    MeanOfOne(YFromPair(Val(r2), Val(r4)));
    MeanOfTwo(YFromPair(Val(r1), Val(r3)), YFromPair(Val(r2), Val(r4)));
  }

  /**
   The returned position is the unclamped fix pulled into the field: kept
   when it lies inside, moved to the nearest edge on each axis otherwise.
   */
  lemma FixIsClampedRawFix(t: Table, sqrt: SquareRoot)
    requires ValidCount(t) >= 3
    ensures RawFix(t).Some? && Solve(t, sqrt).Some?
    ensures
      var raw, e := RawFix(t).value, Solve(t, sqrt).value;
      && (InField(raw) ==> e.Position() == raw)
      && (raw.x < 0.0 ==> e.x == 0.0) && (Width < raw.x ==> e.x == Width)
      && (raw.y < 0.0 ==> e.y == 0.0) && (Height < raw.y ==> e.y == Height)
      && e.x == Clamp(raw.x, 0.0, Width) && e.y == Clamp(raw.y, 0.0, Height)
  {
    ThreePositiveGiveBothAxes(t);
  }

  /** The residual one anchor contributes when its distance is positive, and 0 otherwise. */
  function ResidualOf(t: Table, c: Coordinate, a: Anchor, sqrt: SquareRoot): real {
    var d := DistanceOf(t, a.id);
    if Positive(d) then Residual(c, a, d.value, sqrt) else 0.0
  }

  /** The per-anchor residuals of `anchors`, added up. */
  function ResidualSum(t: Table, c: Coordinate, anchors: seq<Anchor>, sqrt: SquareRoot): real {
    if anchors == [] then 0.0 else ResidualOf(t, c, anchors[0], sqrt) + ResidualSum(t, c, anchors[1..], sqrt)
  }

  lemma {:induction false} SumOfResidualTerms(t: Table, c: Coordinate, anchors: seq<Anchor>, sqrt: SquareRoot)
    ensures Sum(ResidualTerms(t, c, anchors, sqrt)) == ResidualSum(t, c, anchors, sqrt)
  {
    if anchors != [] {
      var rest := ResidualTerms(t, c, anchors[1..], sqrt);
      SumOfResidualTerms(t, c, anchors[1..], sqrt);
      var d := DistanceOf(t, anchors[0].id);
      if Positive(d) {
        var x := Residual(c, anchors[0], d.value, sqrt);
        assert ([x] + rest)[1..] == rest;
      }
    }
  }

  lemma ResidualSumOfAnchors(t: Table, c: Coordinate, sqrt: SquareRoot)
    ensures ResidualSum(t, c, Anchors, sqrt)
      == ResidualOf(t, c, Anchors[0], sqrt) + ResidualOf(t, c, Anchors[1], sqrt)
       + ResidualOf(t, c, Anchors[2], sqrt) + ResidualOf(t, c, Anchors[3], sqrt)
  {
    assert Anchors[1..][1..] == Anchors[2..];
    assert Anchors[2..][1..] == Anchors[3..];
    assert Anchors[3..][1..] == Anchors[4..] == [];
    assert ResidualSum(t, c, Anchors[3..], sqrt) == ResidualOf(t, c, Anchors[3], sqrt);
    assert ResidualSum(t, c, Anchors[2..], sqrt) == ResidualOf(t, c, Anchors[2], sqrt) + ResidualSum(t, c, Anchors[3..], sqrt);
    assert ResidualSum(t, c, Anchors[1..], sqrt) == ResidualOf(t, c, Anchors[1], sqrt) + ResidualSum(t, c, Anchors[2..], sqrt);
  }

  lemma TermCountIsValidCount(t: Table, c: Coordinate, sqrt: SquareRoot)
    ensures |ResidualTerms(t, c, Anchors, sqrt)| == ValidCount(t)
  {
  }

  /** The mean residual at any position is the sum of the per-anchor residuals over the number of valid anchors. */
  lemma MeanResidualIsAverage(t: Table, c: Coordinate, sqrt: SquareRoot)
    ensures ValidCount(t) == 0 ==> MeanResidual(t, c, sqrt) == 0.0
    ensures ValidCount(t) > 0 ==>
      MeanResidual(t, c, sqrt)
      == (ResidualOf(t, c, Anchors[0], sqrt) + ResidualOf(t, c, Anchors[1], sqrt)
        + ResidualOf(t, c, Anchors[2], sqrt) + ResidualOf(t, c, Anchors[3], sqrt)) / (ValidCount(t) as real)
  {
    TermCountIsValidCount(t, c, sqrt);
    SumOfResidualTerms(t, c, Anchors, sqrt);
    ResidualSumOfAnchors(t, c, sqrt);
  }

  /** The error a fix carries is the mean residual at the returned (clamped) position. */
  lemma FixErrorAtFixPosition(t: Table, sqrt: SquareRoot)
    requires ValidCount(t) >= 3
    ensures Solve(t, sqrt).Some?
    ensures Solve(t, sqrt).value.error == MeanResidual(t, Solve(t, sqrt).value.Position(), sqrt)
  {
    ThreePositiveGiveBothAxes(t);
  }

  /**
   The error of a fix is the mean, over the (at least three) anchors with a
   positive distance, of `|dist(fix, anchor) - distance|`.
   */
  lemma ErrorIsMeanResidual(t: Table, sqrt: SquareRoot)
    requires ValidCount(t) >= 3
    ensures Solve(t, sqrt).Some?
    ensures
      var e := Solve(t, sqrt).value;
      var c := e.Position();
      e.error
         == (ResidualOf(t, c, Anchors[0], sqrt) + ResidualOf(t, c, Anchors[1], sqrt)
           + ResidualOf(t, c, Anchors[2], sqrt) + ResidualOf(t, c, Anchors[3], sqrt)) / (ValidCount(t) as real)
  {
    FixErrorAtFixPosition(t, sqrt);
    MeanResidualIsAverage(t, Solve(t, sqrt).value.Position(), sqrt);
  }

  /** Four equal positive distances put the fix at the centre of the field. */
  lemma EqualDistancesGiveCentre(t: Table, d: real, sqrt: SquareRoot)
    requires d > 0.0
    requires AnchorDistances(t) == [Some(d), Some(d), Some(d), Some(d)]
    ensures Solve(t, sqrt).Some?
    ensures Solve(t, sqrt).value.Position() == Coordinate(Width / 2.0, Height / 2.0)
    ensures d == sqrt(Width * Width / 4.0 + Height * Height / 4.0) ==> Solve(t, sqrt).value.error == 0.0
  {
    CountOfFour(Some(d), Some(d), Some(d), Some(d));
    RawFixAveragesPairs(t);
    var c := Coordinate(Width / 2.0, Height / 2.0);
    if d == sqrt(Width * Width / 4.0 + Height * Height / 4.0) {
      ErrorIsMeanResidual(t, sqrt);
    }
  }

  lemma {:induction false} ResidualTermsAgree(t1: Table, t2: Table, c: Coordinate, anchors: seq<Anchor>, sqrt: SquareRoot)
    requires Distances(t1, anchors) == Distances(t2, anchors)
    ensures ResidualTerms(t1, c, anchors, sqrt) == ResidualTerms(t2, c, anchors, sqrt)
  {
    if anchors != [] {
      assert Distances(t1, anchors)[1..] == Distances(t1, anchors[1..]);
      assert Distances(t2, anchors)[1..] == Distances(t2, anchors[1..]);
      assert DistanceOf(t1, anchors[0].id) == Distances(t1, anchors)[0];
      ResidualTermsAgree(t1, t2, c, anchors[1..], sqrt);
    }
  }

  /** Only the distances of anchors "1".."4" matter: entries under any other key never change the result. */
  lemma OnlyAnchorDistancesMatter(t1: Table, t2: Table, sqrt: SquareRoot)
    requires AnchorDistances(t1) == AnchorDistances(t2)
    ensures Solve(t1, sqrt) == Solve(t2, sqrt)
  {
    assert forall i :: 0 <= i < 4 ==> AnchorDistances(t1)[i] == AnchorDistances(t2)[i];
    assert ValidCount(t1) == ValidCount(t2);
    assert RawFix(t1) == RawFix(t2);
    forall c: Coordinate
      ensures MeanResidual(t1, c, sqrt) == MeanResidual(t2, c, sqrt)
    {
      ResidualTermsAgree(t1, t2, c, Anchors, sqrt);
    }
  }

  /** A reading stored under a key other than "1".."4" leaves the result unchanged. */
  lemma ForeignKeyIgnored(t: Table, r: Reading, sqrt: SquareRoot)
    requires r.anchorId !in {"1", "2", "3", "4"}
    ensures Solve(t[r.anchorId := r], sqrt) == Solve(t, sqrt)
  {
    OnlyAnchorDistancesMatter(t[r.anchorId := r], t, sqrt);
  }

  /**
   A negative distance on anchor 1 is truthy, so it feeds pairs (1,2) and
   (1,3), but it is neither counted as valid nor given a residual.
   */
  lemma NegativeDistanceFeedsPairsOnly(t: Table, d: real, sqrt: SquareRoot)
    requires d < 0.0
    requires DistanceOf(t, "1") == Some(d)
    requires Positive(DistanceOf(t, "2")) && Positive(DistanceOf(t, "3")) && Positive(DistanceOf(t, "4"))
    ensures ValidCount(t) == 3
    ensures Solve(t, sqrt).Some?
    ensures
      var v2, v3, v4 := Val(DistanceOf(t, "2")), Val(DistanceOf(t, "3")), Val(DistanceOf(t, "4"));
      RawFix(t) == Some(Coordinate((XFromPair(d, v2) + XFromPair(v3, v4)) / 2.0,
                                   (YFromPair(d, v3) + YFromPair(v2, v4)) / 2.0))
    ensures ResidualOf(t, Solve(t, sqrt).value.Position(), Anchors[0], sqrt) == 0.0
  {
    CountOfFour(DistanceOf(t, "1"), DistanceOf(t, "2"), DistanceOf(t, "3"), DistanceOf(t, "4"));
    RawFixAveragesPairs(t);
  }
}
