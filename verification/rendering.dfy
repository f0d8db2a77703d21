/** The earlier renderer: keypoint dots and skeleton lines only, with the
    same score gating as the current one and no stick figure. */
module Rendering {
  import opened Pose
  import opened Render

  /** `Rendering.drawResult(pose)`: nothing without keypoints; otherwise the
      dots, then the skeleton lines. */
  function DrawResult(pose: PoseEstimate, sides: KeypointsBySide, pairs: seq<(nat, nat)>, cfg: Config): (r: seq<DrawCmd>)
    requires pose.keypoints.Some? ==> Gateable(pose.keypoints.value, sides, pairs)
    ensures pose.keypoints.None? ==> r == []
    ensures forall c :: c in r ==> c.Dot? || c.Line?
    ensures pose.keypoints.Some? ==> |r| <= |sides.middle| + |sides.left| + |sides.right| + |pairs|
  {
    match pose.keypoints
    case None => []
    case Some(kps) => DrawKeypoints(kps, sides, cfg) + DrawSkeleton(kps, pairs, cfg)
  }

  /** The earlier renderer draws exactly what the current one draws before
      its stick figure: the two share the dot and line gating, and the
      current one only appends the figure. */
  lemma CurrentExtendsEarlier(pose: PoseEstimate, sides: KeypointsBySide, pairs: seq<(nat, nat)>, cfg: Config,
                              hypot: (real, real) -> real, normal: (Point, Point) -> Point)
    requires pose.keypoints.Some? ==> Drawable(pose.keypoints.value, sides, pairs)
    ensures pose.keypoints.None? ==>
              Render.DrawResult(pose, sides, pairs, cfg, hypot, normal) == DrawResult(pose, sides, pairs, cfg) == []
    ensures pose.keypoints.Some? ==>
              Render.DrawResult(pose, sides, pairs, cfg, hypot, normal)
                == DrawResult(pose, sides, pairs, cfg) + DrawStickFigure(pose.keypoints.value, hypot, normal)
  {
    if pose.keypoints.Some? {
      ResultParts(pose.keypoints.value, sides, pairs, cfg, hypot, normal);
    }
  }

  /** A dot for joint `i` in colour group `side` is drawn exactly when `i` is
      in that group and its keypoint, a missing score counting as 1, reaches
      the threshold (`scoreThreshold || 0`, 0.5 by default). */
  lemma DotIff(kps: Frame, sides: KeypointsBySide, pairs: seq<(nat, nat)>, cfg: Config, i: nat, side: Side)
    requires Gateable(kps, sides, pairs) && i < |kps|
    ensures var r := DrawResult(PoseEstimate(Some(kps)), sides, pairs, cfg);
      DotFor(kps, i, side) in r <==> i in GroupOf(sides, side) && EffectiveScore(kps[i]) >= Threshold(cfg)
  {
    var lines := DrawSkeleton(kps, pairs, cfg);
    assert DotFor(kps, i, side) !in lines;
  }

  /** A line for joints `(i, j)` is drawn exactly when the pair is adjacent
      and both keypoints reach the threshold. */
  lemma LineIff(kps: Frame, sides: KeypointsBySide, pairs: seq<(nat, nat)>, cfg: Config, i: nat, j: nat)
    requires Gateable(kps, sides, pairs) && i < |kps| && j < |kps|
    ensures var r := DrawResult(PoseEstimate(Some(kps)), sides, pairs, cfg);
      LineFor(kps, i, j) in r <==>
        (i, j) in pairs && EffectiveScore(kps[i]) >= Threshold(cfg) && EffectiveScore(kps[j]) >= Threshold(cfg)
  {
    SkeletonLineIff(kps, pairs, cfg, i, j);
    var dots := DrawKeypoints(kps, sides, cfg);
    assert LineFor(kps, i, j) !in dots;
  }

  /** Under the default configuration, a keypoint whose score is exactly the
      threshold is drawn, one just below it is not, and one without a score
      always is. */
  lemma DefaultThresholdBoundary(kps: Frame, sides: KeypointsBySide, pairs: seq<(nat, nat)>, i: nat, side: Side)
    requires Gateable(kps, sides, pairs) && i < |kps| && i in GroupOf(sides, side)
    ensures var r := DrawResult(PoseEstimate(Some(kps)), sides, pairs, DefaultConfig);
      && (kps[i].score == Some(0.5) ==> DotFor(kps, i, side) in r)
      && (kps[i].score.Some? && kps[i].score.value < 0.5 ==> DotFor(kps, i, side) !in r)
      && (kps[i].score.None? ==> DotFor(kps, i, side) in r)
  {
    DotIff(kps, sides, pairs, DefaultConfig, i, side);
  }
}
