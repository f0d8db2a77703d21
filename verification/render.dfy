/** The pose renderer: keypoint dots and skeleton lines gated on the detector's
    confidence scores, and the stylised stick figure (a face disc plus eight
    tapered limb sticks). Canvas calls are returned as abstract commands, in
    the order they are made. */
module Render {
  import opened Pose

  /** `DEFAULT_RADIUS`: radius of a keypoint dot. */
  const DefaultRadius: real := 4.0
  /** `POSENET_CONFIG.scoreThreshold`. */
  const DefaultScoreThreshold: real := 0.5

  /** The renderer's copy of the detector configuration; only the score
      threshold is read, and it may be unset. */
  datatype Config = Config(scoreThreshold: Option<real>)

  /** The configuration a renderer is constructed with. */
  const DefaultConfig: Config := Config(Some(DefaultScoreThreshold))

  /** Which colour group a keypoint dot is drawn in. */
  datatype Side = Middle | Left | Right

  /** The detection library's partition of joint indices by body side, taken
      as given. */
  datatype KeypointsBySide = KeypointsBySide(middle: seq<nat>, left: seq<nat>, right: seq<nat>)

  /** The drawing calls the renderer makes. `Dot` and `Line` carry the joint
      indices they were drawn for. `Disc` is a filled circle; `Quad` a filled
      closed path through its vertices. */
  datatype DrawCmd =
    | Dot(joint: nat, side: Side, center: Point, radius: real)
    | Line(from: nat, to: nat, a: Point, b: Point)
    | Disc(center: Point, radius: real)
    | Quad(vertices: seq<Point>)

  /** `modelConfig.scoreThreshold || 0`: an unset or zero threshold lets
      everything through. */
  function Threshold(cfg: Config): (t: real)
    ensures cfg.scoreThreshold.None? ==> t == 0.0
    ensures cfg.scoreThreshold.Some? ==> t == cfg.scoreThreshold.value
    ensures cfg == DefaultConfig ==> t == 0.5
  {
    if cfg.scoreThreshold.None? || cfg.scoreThreshold.value == 0.0 then 0.0
    else cfg.scoreThreshold.value
  }

  /** A keypoint is shown when its score, with a missing score counting as 1,
      reaches the threshold. The boundary counts as shown. */
  predicate Shown(k: Keypoint, threshold: real) {
    EffectiveScore(k) >= threshold
  }

  ghost predicate IndicesIn(ids: seq<nat>, kps: Frame) {
    forall j :: 0 <= j < |ids| ==> ids[j] < |kps|
  }

  ghost predicate PairsIn(pairs: seq<(nat, nat)>, kps: Frame) {
    forall j :: 0 <= j < |pairs| ==> pairs[j].0 < |kps| && pairs[j].1 < |kps|
  }

  /** The dot drawn for joint `i`. */
  function DotFor(kps: Frame, i: nat, side: Side): DrawCmd
    requires i < |kps|
  {
    Dot(i, side, PointOf(kps[i]), DefaultRadius)
  }

  /** The line drawn for the pair `(i, j)`. */
  function LineFor(kps: Frame, i: nat, j: nat): DrawCmd
    requires i < |kps| && j < |kps|
  {
    Line(i, j, PointOf(kps[i]), PointOf(kps[j]))
  }

  // ---------------------------------------------------------------------
  // Keypoints

  /** `drawKeypoint(keypoint)`, for joint `i` in colour group `side`. */
  function DrawKeypoint(kps: Frame, i: nat, side: Side, cfg: Config): (r: seq<DrawCmd>)
    requires i < |kps|
    ensures r == [] || r == [DotFor(kps, i, side)]
    ensures r != [] <==> Shown(kps[i], Threshold(cfg))
  {
    var score := EffectiveScore(kps[i]);
    if score >= Threshold(cfg) then [DotFor(kps, i, side)] else []
  }

  /** The loop over one colour group of `drawKeypoints`. */
  function DrawKeypointGroup(kps: Frame, ids: seq<nat>, side: Side, cfg: Config): (r: seq<DrawCmd>)
    requires IndicesIn(ids, kps)
    ensures |r| <= |ids|
    ensures forall c :: c in r ==>
              (c.Dot? && c.side == side && c.joint in ids && c.joint < |kps|
               && c == DotFor(kps, c.joint, side) && Shown(kps[c.joint], Threshold(cfg)))
    ensures forall j :: 0 <= j < |ids| && Shown(kps[ids[j]], Threshold(cfg)) ==> DotFor(kps, ids[j], side) in r
    decreases |ids|
  {
    if |ids| == 0 then []
    else DrawKeypoint(kps, ids[0], side, cfg) + DrawKeypointGroup(kps, ids[1..], side, cfg)
  }

  /** A dot for joint `i` in colour `dotSide` comes out of the group loop for
      `side` exactly when the colours agree, `i` is in the group and its
      keypoint is shown. */
  lemma GroupDotIff(kps: Frame, ids: seq<nat>, side: Side, cfg: Config, i: nat, dotSide: Side)
    requires IndicesIn(ids, kps) && i < |kps|
    ensures var r := DrawKeypointGroup(kps, ids, side, cfg);
      DotFor(kps, i, dotSide) in r <==> (dotSide == side && i in ids && Shown(kps[i], Threshold(cfg)))
  {
    if dotSide == side && i in ids && Shown(kps[i], Threshold(cfg)) {
      var j :| 0 <= j < |ids| && ids[j] == i;
    }
  }

  /** `drawKeypoints(keypoints)`: the middle joints, then the left ones, then
      the right ones. A dot for joint `i` in a colour group is drawn exactly
      when `i` belongs to that group and its keypoint is shown. */
  function DrawKeypoints(kps: Frame, sides: KeypointsBySide, cfg: Config): (r: seq<DrawCmd>)
    requires IndicesIn(sides.middle, kps) && IndicesIn(sides.left, kps) && IndicesIn(sides.right, kps)
    ensures |r| <= |sides.middle| + |sides.left| + |sides.right|
    ensures forall c :: c in r ==> (c.Dot? && c.joint < |kps| && Shown(kps[c.joint], Threshold(cfg)))
    ensures forall i: nat, side: Side :: i < |kps| ==>
              (DotFor(kps, i, side) in r <==> i in GroupOf(sides, side) && Shown(kps[i], Threshold(cfg)))
  {
    var middle := DrawKeypointGroup(kps, sides.middle, Middle, cfg);
    var left := DrawKeypointGroup(kps, sides.left, Left, cfg);
    var right := DrawKeypointGroup(kps, sides.right, Right, cfg);
    forall i: nat, side: Side | i < |kps|
      ensures DotFor(kps, i, side) in middle + left + right <==> i in GroupOf(sides, side) && Shown(kps[i], Threshold(cfg))
    {
      GroupDotIff(kps, sides.middle, Middle, cfg, i, side);
      GroupDotIff(kps, sides.left, Left, cfg, i, side);
      GroupDotIff(kps, sides.right, Right, cfg, i, side);
    }
    middle + left + right
  }

  function GroupOf(sides: KeypointsBySide, side: Side): seq<nat> {
    match side
    case Middle => sides.middle
    case Left => sides.left
    case Right => sides.right
  }

  // ---------------------------------------------------------------------
  // Skeleton

  /** `drawSkeleton(keypoints)`: one line per adjacent pair whose two
      keypoints are both shown, in the order of the pair list. */
  function DrawSkeleton(kps: Frame, pairs: seq<(nat, nat)>, cfg: Config): (r: seq<DrawCmd>)
    requires PairsIn(pairs, kps)
    ensures |r| <= |pairs|
    ensures forall c :: c in r ==>
              (c.Line? && (c.from, c.to) in pairs && c.from < |kps| && c.to < |kps|
               && c == LineFor(kps, c.from, c.to)
               && Shown(kps[c.from], Threshold(cfg)) && Shown(kps[c.to], Threshold(cfg)))
    ensures forall j :: 0 <= j < |pairs| ==>
              (Shown(kps[pairs[j].0], Threshold(cfg)) && Shown(kps[pairs[j].1], Threshold(cfg))
               ==> LineFor(kps, pairs[j].0, pairs[j].1) in r)
    decreases |pairs|
  {
    if |pairs| == 0 then []
    else
      var (i, j) := pairs[0];
      var score1 := EffectiveScore(kps[i]);
      var score2 := EffectiveScore(kps[j]);
      var threshold := Threshold(cfg);
      var here := if score1 >= threshold && score2 >= threshold then [LineFor(kps, i, j)] else [];
      here + DrawSkeleton(kps, pairs[1..], cfg)
  }

  /** A line for joints `(i, j)` is drawn exactly when that pair is adjacent
      and both of its keypoints are shown. */
  lemma SkeletonLineIff(kps: Frame, pairs: seq<(nat, nat)>, cfg: Config, i: nat, j: nat)
    requires PairsIn(pairs, kps) && i < |kps| && j < |kps|
    ensures LineFor(kps, i, j) in DrawSkeleton(kps, pairs, cfg) <==>
              (i, j) in pairs && Shown(kps[i], Threshold(cfg)) && Shown(kps[j], Threshold(cfg))
  {
    if (i, j) in pairs && Shown(kps[i], Threshold(cfg)) && Shown(kps[j], Threshold(cfg)) {
      var k :| 0 <= k < |pairs| && pairs[k] == (i, j);
    }
  }

  // ---------------------------------------------------------------------
  // Face centre

  /** The joint names `getFaceCenter` looks at. */
  const FaceNames: set<string> := {"nose", "left_eye", "right_eye", "left_ear", "right_ear"}

  /** A keypoint counts towards the face centre when it is a face joint with a
      score strictly above `POSENET_CONFIG.scoreThreshold`. Unlike the dot
      gating, a missing score excludes it. */
  predicate InFace(k: Keypoint) {
    k.name in FaceNames && k.score.Some? && k.score.value > DefaultScoreThreshold
  }

  /** The face points of a frame, in order: the reference the accumulation
      loop is measured against. */
  function FacePoints(kps: Frame): (ps: seq<Point>)
    ensures |ps| <= |kps|
    ensures |ps| == 0 <==> forall i :: 0 <= i < |kps| ==> !InFace(kps[i])
    ensures forall p :: p in ps ==> exists i :: 0 <= i < |kps| && InFace(kps[i]) && PointOf(kps[i]) == p
    decreases |kps|
  {
    if |kps| == 0 then []
    else
      var init := kps[..|kps| - 1];
      var rest := FacePoints(init);
      assert forall i :: 0 <= i < |init| ==> init[i] == kps[i];
      if InFace(kps[|kps| - 1]) then rest + [PointOf(kps[|kps| - 1])] else rest
  }

  function Xs(ps: seq<Point>): (xs: seq<real>)
    ensures |xs| == |ps| && forall j :: 0 <= j < |ps| ==> xs[j] == ps[j].x
  {
    seq(|ps|, j requires 0 <= j < |ps| => ps[j].x)
  }

  function Ys(ps: seq<Point>): (ys: seq<real>)
    ensures |ys| == |ps| && forall j :: 0 <= j < |ps| ==> ys[j] == ps[j].y
  {
    seq(|ps|, j requires 0 <= j < |ps| => ps[j].y)
  }

  function Sum(xs: seq<real>): real {
    if |xs| == 0 then 0.0 else Sum(xs[..|xs| - 1]) + xs[|xs| - 1]
  }

  /** The smallest value of a non-empty sequence: a lower bound of it
      (`LoAttained` shows it is one of its values). */
  function Lo(xs: seq<real>): (m: real)
    requires |xs| > 0
    ensures forall j :: 0 <= j < |xs| ==> m <= xs[j]
  {
    if |xs| == 1 then xs[0]
    else
      var rest := Lo(xs[..|xs| - 1]);
      assert forall j :: 0 <= j < |xs| - 1 ==> xs[..|xs| - 1][j] == xs[j];
      if xs[|xs| - 1] < rest then xs[|xs| - 1] else rest
  }

  /** The largest value of a non-empty sequence: an upper bound of it
      (`HiAttained` shows it is one of its values). */
  function Hi(xs: seq<real>): (m: real)
    requires |xs| > 0
    ensures forall j :: 0 <= j < |xs| ==> xs[j] <= m
  {
    if |xs| == 1 then xs[0]
    else
      var rest := Hi(xs[..|xs| - 1]);
      assert forall j :: 0 <= j < |xs| - 1 ==> xs[..|xs| - 1][j] == xs[j];
      if xs[|xs| - 1] > rest then xs[|xs| - 1] else rest
  }

  lemma {:induction false} LoAttained(xs: seq<real>)
    requires |xs| > 0
    ensures Lo(xs) in xs
    decreases |xs|
  {
    if |xs| > 1 {
      LoAttained(xs[..|xs| - 1]);
      assert Lo(xs[..|xs| - 1]) in xs;
    }
  }

  lemma {:induction false} HiAttained(xs: seq<real>)
    requires |xs| > 0
    ensures Hi(xs) in xs
    decreases |xs|
  {
    if |xs| > 1 {
      HiAttained(xs[..|xs| - 1]);
      assert Hi(xs[..|xs| - 1]) in xs;
    }
  }

  /** The sums of `getFaceCenter`'s loop. */
  datatype FaceSums = FaceSums(sumX: real, sumY: real, count: nat)

  /** The accumulation loop of `getFaceCenter`: it counts exactly the face
      points and sums their coordinates. */
  function AccumulateFace(kps: Frame): (r: FaceSums)
    ensures r.count == |FacePoints(kps)|
    ensures r.sumX == Sum(Xs(FacePoints(kps))) && r.sumY == Sum(Ys(FacePoints(kps)))
    decreases |kps|
  {
    if |kps| == 0 then FaceSums(0.0, 0.0, 0)
    else
      var point := kps[|kps| - 1];
      var acc := AccumulateFace(kps[..|kps| - 1]);
      if InFace(point) then
        var ps := FacePoints(kps[..|kps| - 1]);
        assert Xs(ps + [PointOf(point)])[..|ps|] == Xs(ps);
        assert Ys(ps + [PointOf(point)])[..|ps|] == Ys(ps);
        FaceSums(acc.sumX + point.x, acc.sumY + point.y, acc.count + 1)
      else
        acc
  }

  lemma MulLe(a: real, b: real, c: real)
    requires a <= b && c >= 0.0
    ensures a * c <= b * c
  {
    assert b * c - a * c == (b - a) * c;
  }

  /** One step of the bracket: adding `v` to a sum of `k` values that was at
      least `k` times their least gives a sum of `k + 1` values at least
      `k + 1` times the new least. */
  lemma LowStep(lo: real, loInit: real, s: real, v: real, k: nat)
    requires lo <= loInit && lo <= v && loInit * k as real <= s
    ensures lo * (k + 1) as real <= s + v
  {
    var n := k as real;
    MulLe(lo, loInit, n);
    assert lo * (k + 1) as real == lo * n + lo;
  }

  lemma HighStep(hi: real, hiInit: real, s: real, v: real, k: nat)
    requires hiInit <= hi && v <= hi && s <= hiInit * k as real
    ensures s + v <= hi * (k + 1) as real
  {
    var n := k as real;
    MulLe(hiInit, hi, n);
    assert hi * (k + 1) as real == hi * n + hi;
  }

  /** The sum of n values is at least n times their least. */
  lemma {:induction false} SumAboveLo(xs: seq<real>)
    requires |xs| > 0
    ensures Lo(xs) * |xs| as real <= Sum(xs)
    decreases |xs|
  {
    if |xs| > 1 {
      var init := xs[..|xs| - 1];
      SumAboveLo(init);
      LowStep(Lo(xs), Lo(init), Sum(init), xs[|xs| - 1], |init|);
    }
  }

  /** The sum of n values is at most n times their greatest. */
  lemma {:induction false} SumBelowHi(xs: seq<real>)
    requires |xs| > 0
    ensures Sum(xs) <= Hi(xs) * |xs| as real
    decreases |xs|
  {
    if |xs| > 1 {
      var init := xs[..|xs| - 1];
      SumBelowHi(init);
      HighStep(Hi(xs), Hi(init), Sum(init), xs[|xs| - 1], |init|);
    }
  }

  lemma DivBetween(lo: real, s: real, hi: real, n: real)
    requires n > 0.0 && lo * n <= s <= hi * n
    ensures lo <= s / n <= hi
  {
    assert s / n - lo == (s - lo * n) / n;
    assert hi - s / n == (hi * n - s) / n;
  }

  /** The mean of a non-empty sequence lies between its least and greatest
      values. */
  lemma MeanBetween(xs: seq<real>)
    requires |xs| > 0
    ensures Lo(xs) <= Sum(xs) / |xs| as real <= Hi(xs)
  {
    SumAboveLo(xs);
    SumBelowHi(xs);
    var lo, s, hi, n := Lo(xs), Sum(xs), Hi(xs), |xs| as real;
    DivBetween(lo, s, hi, n);
  }

  /** `getFaceCenter(keypoints)`: the mean position of the face points, or
      nothing (`false` in the source) when there is none. The centre is the
      mean of the face points and lies in their bounding box. */
  function GetFaceCenter(kps: Frame): (r: Option<Point>)
    ensures r.None? <==> forall i :: 0 <= i < |kps| ==> !InFace(kps[i])
    ensures r.Some? ==> var ps := FacePoints(kps);
      && |ps| > 0
      && r.value == Point(Sum(Xs(ps)) / |ps| as real, Sum(Ys(ps)) / |ps| as real)
      && Lo(Xs(ps)) <= r.value.x <= Hi(Xs(ps))
      && Lo(Ys(ps)) <= r.value.y <= Hi(Ys(ps))
  {
    var acc := AccumulateFace(kps);
    if acc.count > 0 then
      CenterInBox(FacePoints(kps));
      Some(Point(acc.sumX / acc.count as real, acc.sumY / acc.count as real))
    else None
  }

  lemma CenterInBox(ps: seq<Point>)
    requires |ps| > 0
    ensures Lo(Xs(ps)) <= Sum(Xs(ps)) / |ps| as real <= Hi(Xs(ps))
    ensures Lo(Ys(ps)) <= Sum(Ys(ps)) / |ps| as real <= Hi(Ys(ps))
  {
    MeanBetween(Xs(ps));
    MeanBetween(Ys(ps));
  }

  // ---------------------------------------------------------------------
  // Stick figure

  /** The face radius and the three stick radii of the taper chain. */
  datatype Radii = Radii(face: real, r1: real, r2: real, r3: real)

  function Max(a: real, b: real): real {
    if a >= b then a else b
  }

  /** `faceRadius = 2 * max(hypot(kp1 - kp0), hypot(kp0 - kp2))` from the nose
      and the eyes, then `r1 = 0.6 * faceRadius` and two steps of `0.75`.
      `hypot` is the host's `Math.hypot`. */
  function StickRadii(kps: Frame, hypot: (real, real) -> real): Radii
    requires |kps| >= 3
  {
    var leftNose2Ear := hypot(kps[1].x - kps[0].x, kps[1].y - kps[0].y);
    var rightNose2Ear := hypot(kps[0].x - kps[2].x, kps[0].y - kps[2].y);
    var faceRadius := Max(leftNose2Ear, rightNose2Ear) * 2.0;
    var stickRadius1 := faceRadius * 0.6;
    var stickRadius2 := stickRadius1 * 0.75;
    var stickRadius3 := stickRadius2 * 0.75;
    Radii(faceRadius, stickRadius1, stickRadius2, stickRadius3)
  }

  /** With a non-negative `hypot`, the face radius is twice the longer of the
      two nose–eye distances, and the stick radii taper:
      `0 ≤ r3 ≤ r2 ≤ r1 ≤ faceRadius`, at 0.6, 0.45 and 0.3375 of the face
      radius. */
  lemma RadiiTaper(kps: Frame, hypot: (real, real) -> real)
    requires |kps| >= 3
    requires hypot(kps[1].x - kps[0].x, kps[1].y - kps[0].y) >= 0.0
    requires hypot(kps[0].x - kps[2].x, kps[0].y - kps[2].y) >= 0.0
    ensures var rad := StickRadii(kps, hypot);
      var d1 := hypot(kps[1].x - kps[0].x, kps[1].y - kps[0].y);
      var d2 := hypot(kps[0].x - kps[2].x, kps[0].y - kps[2].y);
      && rad.face >= 2.0 * d1 && rad.face >= 2.0 * d2
      && (rad.face == 2.0 * d1 || rad.face == 2.0 * d2)
      && 0.0 <= rad.r3 <= rad.r2 <= rad.r1 <= rad.face
      && rad.r1 == 0.6 * rad.face && rad.r2 == 0.45 * rad.face && rad.r3 == 0.3375 * rad.face
  {
  }

  /** One tapered stick: from joint `from` with radius `fromRadius` to joint
      `to` with radius `toRadius`. */
  datatype Limb = Limb(from: nat, to: nat, fromRadius: real, toRadius: real)

  /** `rootAry`: left and right shoulder, left and right hip. */
  const LimbRoots: seq<nat> := [5, 6, 11, 12]

  /** The two sticks hanging from root `i`: root to middle joint (`i + 2`),
      middle to end joint (`i + 4`). */
  function LimbsFrom(i: nat, rad: Radii): seq<Limb> {
    [Limb(i, i + 2, rad.r1, rad.r2), Limb(i + 2, i + 4, rad.r2, rad.r3)]
  }

  /** The `rootAry.forEach` of `drawStickFigure`, as a table of sticks. */
  function LimbTable(rad: Radii): seq<Limb> {
    LimbsFrom(LimbRoots[0], rad) + LimbsFrom(LimbRoots[1], rad)
      + LimbsFrom(LimbRoots[2], rad) + LimbsFrom(LimbRoots[3], rad)
  }

  /** The stick table: eight sticks, an upper and a lower one per root, each
      joining a joint to the one two places on, all within the 17 joints, the
      upper one tapering from `r1` to `r2` and the lower from `r2` to `r3`. */
  lemma LimbTableShape(rad: Radii)
    ensures var t := LimbTable(rad);
      && |t| == 8
      && (forall k :: 0 <= k < 8 ==> t[k].to == t[k].from + 2 && t[k].to < JointCount)
      && (forall m :: 0 <= m < 4 ==> t[2 * m].from == LimbRoots[m] && t[2 * m + 1].from == t[2 * m].to)
      && (forall m :: 0 <= m < 4 ==> t[2 * m].fromRadius == rad.r1 && t[2 * m].toRadius == rad.r2
                                      && t[2 * m + 1].fromRadius == rad.r2 && t[2 * m + 1].toRadius == rad.r3)
  {
    var t := LimbTable(rad);
    assert t == [Limb(5, 7, rad.r1, rad.r2), Limb(7, 9, rad.r2, rad.r3),
                 Limb(6, 8, rad.r1, rad.r2), Limb(8, 10, rad.r2, rad.r3),
                 Limb(11, 13, rad.r1, rad.r2), Limb(13, 15, rad.r2, rad.r3),
                 Limb(12, 14, rad.r1, rad.r2), Limb(14, 16, rad.r2, rad.r3)];
  }

  function Add(p: Point, q: Point): Point {
    Point(p.x + q.x, p.y + q.y)
  }

  function Scale(a: real, p: Point): Point {
    Point(a * p.x, a * p.y)
  }

  /** `drawStick(point1, point1Radius, point2, point2Radius)`: a cap disc at
      each end, then the quadrilateral whose corners are the ends pushed out
      by their own radius along the unit normal `n` (the direction
      `atan2(dy, dx) + π/2`) and against it (that direction plus π), visited
      in the order p1+, p2+, p2−, p1−. */
  function DrawStick(p1: Point, radius1: real, p2: Point, radius2: real, n: Point): (r: seq<DrawCmd>)
    ensures |r| == 3 && r[0] == Disc(p1, radius1) && r[1] == Disc(p2, radius2)
    ensures r[2].Quad? && |r[2].vertices| == 4
    ensures var v := r[2].vertices;
      // each end of the quad is centred on its cap disc ...
      && Scale(0.5, Add(v[0], v[3])) == p1
      && Scale(0.5, Add(v[1], v[2])) == p2
      // ... and spans twice that cap's radius along the normal
      && Add(v[0], Scale(-1.0, v[3])) == Scale(2.0 * radius1, n)
      && Add(v[1], Scale(-1.0, v[2])) == Scale(2.0 * radius2, n)
  {
    var flipped := Scale(-1.0, n);
    var drawList := [Add(p1, Scale(radius1, n)), Add(p2, Scale(radius2, n)),
                     Add(p1, Scale(radius1, flipped)), Add(p2, Scale(radius2, flipped))];
    [Disc(p1, radius1), Disc(p2, radius2), Quad([drawList[0], drawList[1], drawList[3], drawList[2]])]
  }

  ghost predicate LimbsIn(limbs: seq<Limb>, kps: Frame) {
    forall k :: 0 <= k < |limbs| ==> limbs[k].from < |kps| && limbs[k].to < |kps|
  }

  /** The stick for one limb of the table. */
  function StickFor(kps: Frame, l: Limb, normal: (Point, Point) -> Point): seq<DrawCmd>
    requires l.from < |kps| && l.to < |kps|
  {
    var p1, p2 := PointOf(kps[l.from]), PointOf(kps[l.to]);
    DrawStick(p1, l.fromRadius, p2, l.toRadius, normal(p1, p2))
  }

  /** The sticks for a list of limbs, three commands per limb, in order. */
  function DrawLimbs(kps: Frame, limbs: seq<Limb>, normal: (Point, Point) -> Point): (r: seq<DrawCmd>)
    requires LimbsIn(limbs, kps)
    ensures |r| == 3 * |limbs|
    ensures forall c :: c in r ==> c.Disc? || c.Quad?
    ensures forall k :: 0 <= k < |limbs| ==> r[3 * k..3 * k + 3] == StickFor(kps, limbs[k], normal)
  {
    if |limbs| == 0 then []
    else
      var head := StickFor(kps, limbs[0], normal);
      var rest := DrawLimbs(kps, limbs[1..], normal);
      var r := head + rest;
      forall k | 1 <= k < |limbs| ensures r[3 * k..3 * k + 3] == StickFor(kps, limbs[k], normal) {
        assert limbs[k] == limbs[1..][k - 1];
        assert r[3 * k..3 * k + 3] == rest[3 * (k - 1)..3 * (k - 1) + 3];
      }
      r
  }

  /** The face disc of `drawStickFigure`, when there is a face centre. */
  function FaceDisc(kps: Frame, rad: Radii): (r: seq<DrawCmd>)
    ensures GetFaceCenter(kps).None? ==> r == []
    ensures GetFaceCenter(kps).Some? ==> r == [Disc(GetFaceCenter(kps).value, rad.face)]
  {
    match GetFaceCenter(kps)
    case Some(c) => [Disc(c, rad.face)]
    case None => []
  }

  /** `drawStickFigure(keypoints)`: the face disc, then the eight limb sticks.
      None of it is gated on the keypoint scores, except that the face disc
      needs a face centre. `hypot` and `normal` stand for the host's
      `Math.hypot` and the `cos`/`sin` of the stick direction. */
  function DrawStickFigure(kps: Frame, hypot: (real, real) -> real, normal: (Point, Point) -> Point): (r: seq<DrawCmd>)
    requires |kps| >= JointCount
    ensures forall c :: c in r ==> c.Disc? || c.Quad?
    ensures var face := if GetFaceCenter(kps).Some? then 1 else 0;
      && |r| == face + 24
      && (GetFaceCenter(kps).Some? ==> r[0] == Disc(GetFaceCenter(kps).value, StickRadii(kps, hypot).face))
      && r[face..] == DrawLimbs(kps, LimbTable(StickRadii(kps, hypot)), normal)
  {
    var rad := StickRadii(kps, hypot);
    LimbTableShape(rad);
    FaceDisc(kps, rad) + DrawLimbs(kps, LimbTable(rad), normal)
  }

  // ---------------------------------------------------------------------
  // Whole result

  /** Drawing layers: dots first, then lines, then the stick figure. */
  function Layer(c: DrawCmd): nat {
    match c
    case Dot(_, _, _, _) => 0
    case Line(_, _, _, _) => 1
    case Disc(_, _) => 2
    case Quad(_) => 2
  }

  ghost predicate Layered(r: seq<DrawCmd>) {
    forall a, b :: 0 <= a < b < |r| ==> Layer(r[a]) <= Layer(r[b])
  }

  /** Three runs of commands, each within one layer and in increasing layer
      order, are layered when put together. */
  lemma LayeredRuns(xs: seq<DrawCmd>, ys: seq<DrawCmd>, zs: seq<DrawCmd>)
    requires forall c :: c in xs ==> Layer(c) == 0
    requires forall c :: c in ys ==> Layer(c) == 1
    requires forall c :: c in zs ==> Layer(c) == 2
    ensures Layered(xs + ys + zs)
  {
    var r := xs + ys + zs;
    forall a, b | 0 <= a < b < |r| ensures Layer(r[a]) <= Layer(r[b]) {
      assert r[a] in xs || r[a] in ys || r[a] in zs;
      assert r[b] in xs || r[b] in ys || r[b] in zs;
      if a < |xs| {
        assert r[a] in xs;
      } else if a < |xs| + |ys| {
        assert r[a] in ys;
        assert b >= |xs| && r[b] in ys + zs;
      } else {
        assert r[a] in zs && r[b] in zs;
      }
    }
  }

  /** What the gated dots and lines need of a keypoint list: every index the
      side partition and the adjacency list read is present. */
  ghost predicate Gateable(kps: Frame, sides: KeypointsBySide, pairs: seq<(nat, nat)>) {
    && IndicesIn(sides.middle, kps) && IndicesIn(sides.left, kps) && IndicesIn(sides.right, kps)
    && PairsIn(pairs, kps)
  }

  /** What `drawResult` needs of a keypoint list: the gated parts' indices and
      the 17 joints the stick figure reads. */
  ghost predicate Drawable(kps: Frame, sides: KeypointsBySide, pairs: seq<(nat, nat)>) {
    |kps| >= JointCount && Gateable(kps, sides, pairs)
  }

  /** `drawResult(pose)`: nothing without keypoints; otherwise the dots, the
      skeleton lines and the stick figure, in that layer order. */
  function DrawResult(pose: PoseEstimate, sides: KeypointsBySide, pairs: seq<(nat, nat)>, cfg: Config,
                      hypot: (real, real) -> real, normal: (Point, Point) -> Point): (r: seq<DrawCmd>)
    requires pose.keypoints.Some? ==> Drawable(pose.keypoints.value, sides, pairs)
    ensures pose.keypoints.None? ==> r == []
    ensures Layered(r)
  {
    if pose.keypoints.None? then []
    else
      var kps := pose.keypoints.value;
      var dots := DrawKeypoints(kps, sides, cfg);
      var lines := DrawSkeleton(kps, pairs, cfg);
      var figure := DrawStickFigure(kps, hypot, normal);
      LayeredRuns(dots, lines, figure);
      dots + lines + figure
  }

  /** In a drawn result, a dot for joint `i` in colour group `side` appears
      exactly when `i` is in that group and its keypoint is shown. */
  lemma ResultDotIff(kps: Frame, sides: KeypointsBySide, pairs: seq<(nat, nat)>, cfg: Config,
                     hypot: (real, real) -> real, normal: (Point, Point) -> Point, i: nat, side: Side)
    requires Drawable(kps, sides, pairs) && i < |kps|
    ensures var r := DrawResult(PoseEstimate(Some(kps)), sides, pairs, cfg, hypot, normal);
      DotFor(kps, i, side) in r <==> i in GroupOf(sides, side) && Shown(kps[i], Threshold(cfg))
  {
    ResultParts(kps, sides, pairs, cfg, hypot, normal);
    var dots := DrawKeypoints(kps, sides, cfg);
    var lines := DrawSkeleton(kps, pairs, cfg);
    var figure := DrawStickFigure(kps, hypot, normal);
    assert DotFor(kps, i, side) !in lines && DotFor(kps, i, side) !in figure;
  }

  /** In a drawn result, a line for joints `(i, j)` appears exactly when that
      pair is adjacent and both keypoints are shown. */
  lemma ResultLineIff(kps: Frame, sides: KeypointsBySide, pairs: seq<(nat, nat)>, cfg: Config,
                      hypot: (real, real) -> real, normal: (Point, Point) -> Point, i: nat, j: nat)
    requires Drawable(kps, sides, pairs) && i < |kps| && j < |kps|
    ensures var r := DrawResult(PoseEstimate(Some(kps)), sides, pairs, cfg, hypot, normal);
      LineFor(kps, i, j) in r <==> (i, j) in pairs && Shown(kps[i], Threshold(cfg)) && Shown(kps[j], Threshold(cfg))
  {
    ResultParts(kps, sides, pairs, cfg, hypot, normal);
    SkeletonLineIff(kps, pairs, cfg, i, j);
    var dots := DrawKeypoints(kps, sides, cfg);
    var figure := DrawStickFigure(kps, hypot, normal);
    assert LineFor(kps, i, j) !in dots && LineFor(kps, i, j) !in figure;
  }

  ghost predicate AllScoresZero(kps: Frame) {
    forall i :: 0 <= i < |kps| ==> kps[i].score == Some(0.0)
  }

  /** A colour group none of whose keypoints is shown draws nothing. */
  lemma {:induction false} GroupHidden(kps: Frame, ids: seq<nat>, side: Side, cfg: Config)
    requires IndicesIn(ids, kps)
    requires forall j :: 0 <= j < |ids| ==> !Shown(kps[ids[j]], Threshold(cfg))
    ensures DrawKeypointGroup(kps, ids, side, cfg) == []
    decreases |ids|
  {
    if |ids| > 0 {
      GroupHidden(kps, ids[1..], side, cfg);
    }
  }

  /** A pair list none of whose pairs has both ends shown draws nothing. */
  lemma {:induction false} SkeletonHidden(kps: Frame, pairs: seq<(nat, nat)>, cfg: Config)
    requires PairsIn(pairs, kps)
    requires forall j :: 0 <= j < |pairs| ==> !(Shown(kps[pairs[j].0], Threshold(cfg)) && Shown(kps[pairs[j].1], Threshold(cfg)))
    ensures DrawSkeleton(kps, pairs, cfg) == []
    decreases |pairs|
  {
    if |pairs| > 0 {
      SkeletonHidden(kps, pairs[1..], cfg);
    }
  }

  lemma ZeroScoresNoFace(kps: Frame)
    requires AllScoresZero(kps)
    ensures GetFaceCenter(kps).None?
  {
    assert forall i :: 0 <= i < |kps| ==> !InFace(kps[i]);
  }

  /** The three layers of a drawn result, in order. */
  lemma ResultParts(kps: Frame, sides: KeypointsBySide, pairs: seq<(nat, nat)>, cfg: Config,
                    hypot: (real, real) -> real, normal: (Point, Point) -> Point)
    requires Drawable(kps, sides, pairs)
    ensures DrawResult(PoseEstimate(Some(kps)), sides, pairs, cfg, hypot, normal)
         == DrawKeypoints(kps, sides, cfg) + DrawSkeleton(kps, pairs, cfg) + DrawStickFigure(kps, hypot, normal)
  {
  }

  lemma ZeroScoresNoDots(kps: Frame, sides: KeypointsBySide)
    requires IndicesIn(sides.middle, kps) && IndicesIn(sides.left, kps) && IndicesIn(sides.right, kps)
    requires AllScoresZero(kps)
    ensures DrawKeypoints(kps, sides, DefaultConfig) == []
  {
    GroupHidden(kps, sides.middle, Middle, DefaultConfig);
    GroupHidden(kps, sides.left, Left, DefaultConfig);
    GroupHidden(kps, sides.right, Right, DefaultConfig);
  }

  /** A frame whose every score is 0 (the detector's stand-in for an unseen
      joint) yields no dots, no lines and no face disc under the default
      threshold: only the 24 commands of the eight limb sticks are drawn. */
  lemma ZeroScoresDrawOnlySticks(kps: Frame, sides: KeypointsBySide, pairs: seq<(nat, nat)>,
                                 hypot: (real, real) -> real, normal: (Point, Point) -> Point)
    requires Drawable(kps, sides, pairs) && AllScoresZero(kps)
    ensures GetFaceCenter(kps).None?
    ensures var r := DrawResult(PoseEstimate(Some(kps)), sides, pairs, DefaultConfig, hypot, normal);
      |r| == 24 && r == DrawStickFigure(kps, hypot, normal)
  {
    ZeroScoresNoDots(kps, sides);
    SkeletonHidden(kps, pairs, DefaultConfig);
    ZeroScoresNoFace(kps);
    ResultParts(kps, sides, pairs, DefaultConfig, hypot, normal);
    var figure := DrawStickFigure(kps, hypot, normal);
    assert [] + [] + figure == figure;
  }
}
