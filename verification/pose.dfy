/** Shared data model: 2D points and the named, scored keypoints a pose
    detector reports for one frame. */
module Pose {

  /** The conventional Some/None datatype, standing in for a value that may be
      `null` or `undefined`. */
  datatype Option<+T> = None | Some(value: T) {
    function GetOr(default: T): T {
      match this
      case Some(v) => v
      case None => default
    }
  }

  datatype Point = Point(x: real, y: real)

  /** One joint estimate. An absent `name` is modelled as the empty string
      (both are falsy wherever the name is tested); an absent or null `score`
      is `None`. */
  datatype Keypoint = Keypoint(name: string, x: real, y: real, score: Option<real>)

  /** The keypoints of one frame, in the detector's fixed joint order. */
  type Frame = seq<Keypoint>

  /** One detection result: its keypoint list may be missing (`null`). */
  datatype PoseEstimate = PoseEstimate(keypoints: Option<Frame>)

  /** Number of joints in the standard body layout (nose = 0 … ankles = 15, 16). */
  const JointCount: nat := 17

  function PointOf(k: Keypoint): Point {
    Point(k.x, k.y)
  }

  /** `keypoint.score != null ? keypoint.score : 1`: a missing score counts as
      full confidence. */
  function EffectiveScore(k: Keypoint): (s: real)
    ensures k.score.None? ==> s == 1.0
    ensures k.score.Some? ==> s == k.score.value
  {
    k.score.GetOr(1.0)
  }

  /** `score || 0`: a missing score counts as nothing. A present score of 0 is
      falsy too, which yields the same 0. */
  function ScoreOrZero(score: Option<real>): (s: real)
    ensures score.None? ==> s == 0.0
    ensures score.Some? ==> s == score.value
  {
    if score.None? || score.value == 0.0 then 0.0 else score.value
  }
}
