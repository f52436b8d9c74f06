/** Orientation classifier: from the five facial keypoints of the first
    detected face, choose the rotation that turns the photograph upright.

    Image coordinates: x grows to the right, y grows DOWNWARDS, so a smaller
    y is higher up in the picture. */
module Orientation {

  datatype Point = Point(x: real, y: real)

  /** The detector's five keypoints, in the detector's order:
      right eye, left eye, nose, right mouth corner, left mouth corner
      (right and left of the person in the photograph). */
  datatype Keypoints = Keypoints(eyeR: Point, eyeL: Point, nose: Point, mouthR: Point, mouthL: Point)

  function Abs(r: real): (a: real)
    ensures a >= 0.0 && (a == r || a == -r)
  {
    if r < 0.0 then -r else r
  }

  /** The four sectors of the eye-line direction (dx, dy), stated with
      signs and magnitudes only.  */

  // |angle| < 45: the left eye lies to the right of the right eye and
  // the line is less than half-way to vertical; (0, 0) has angle 0.
  predicate InLevelSector(dx: real, dy: real) {
    dx > Abs(dy) || (dx == 0.0 && dy == 0.0)
  }

  // 45 <= angle <= 135: the left eye lies below the right eye, at least
  // as far down as it is sideways.
  predicate InDownSector(dx: real, dy: real) {
    dy > 0.0 && dy >= Abs(dx)
  }

  // -135 <= angle <= -45: the left eye lies above the right eye, at
  // least as far up as it is sideways.
  predicate InUpSector(dx: real, dy: real) {
    dy < 0.0 && -dy >= Abs(dx)
  }

  // |angle| > 135: the eyes are swapped left to right.
  predicate InReversedSector(dx: real, dy: real) {
    dx < 0.0 && Abs(dy) < -dx
  }

  /** The direction of (dx, dy) in "pseudo-degrees" (the diamond angle,
      scaled by 45).  Like degrees(arctan2(dy, dx)) it lies in (-180, 180]
      and is 0 for (0, 0); it equals the true angle at every multiple of
      45 degrees and is strictly increasing in the true angle, so comparing
      it against 45, 135, -45 and -135 gives the same answers as comparing
      the true angle.  It needs no trigonometry. */
  function PseudoDegrees(dx: real, dy: real): (a: real)
    ensures -180.0 < a <= 180.0
    ensures a < 0.0 <==> dy < 0.0
    ensures a == 0.0 <==> dy == 0.0 && dx >= 0.0
  {
    if dx == 0.0 && dy == 0.0 then 0.0
    else
      var t := dy / (Abs(dx) + Abs(dy));
      QuotientBounds(dy, Abs(dx) + Abs(dy));
      if dx >= 0.0 then 90.0 * t
      else if dy >= 0.0 then 180.0 - 90.0 * t
      else -180.0 - 90.0 * t
  }

  /** n / s has the sign of n and lies in [-1, 1] when |n| <= s. */
  lemma QuotientBounds(n: real, s: real)
    requires s > 0.0 && Abs(n) <= s
    ensures -1.0 <= n / s <= 1.0
    ensures (n / s > 0.0 <==> n > 0.0) && (n / s < 0.0 <==> n < 0.0)
    ensures n / s == 1.0 <==> n == s
    ensures n / s == -1.0 <==> n == -s
  {
    assert (n / s) * s == n;
  }

  /** Comparing a quotient with a constant is comparing the numerator with
      the scaled denominator. */
  lemma QuotientCompare(n: real, s: real, c: real)
    requires s > 0.0
    ensures n / s < c <==> n < c * s
    ensures n / s <= c <==> n <= c * s
  {
    assert (n / s) * s == n;
  }

  /** The source's classifier: the eye-line angle picks a sector; in the
      level sector the eyes must lie above both the mouth and the nose for
      the face to count as already upright. */
  function GetRotationAngle(k: Keypoints): (r: int)
    ensures r == 0 || r == 90 || r == -90 || r == 180
  {
    var dx := k.eyeL.x - k.eyeR.x;
    var dy := k.eyeL.y - k.eyeR.y;
    var angle := PseudoDegrees(dx, dy);
    var eyeY := (k.eyeR.y + k.eyeL.y) / 2.0;
    var mouthY := (k.mouthR.y + k.mouthL.y) / 2.0;
    var noseY := k.nose.y;
    if Abs(angle) < 45.0 then
      (if eyeY < mouthY && eyeY < noseY then 0 else 180)
    else if 45.0 <= angle <= 135.0 then -90
    else if -135.0 <= angle <= -45.0 then 90
    else 180
  }

  /** On the eight compass directions the pseudo-angle is the true angle. */
  lemma PseudoDegreesCompass(d: real)
    requires d > 0.0
    ensures PseudoDegrees(d, 0.0) == 0.0 && PseudoDegrees(d, d) == 45.0
    ensures PseudoDegrees(0.0, d) == 90.0 && PseudoDegrees(-d, d) == 135.0
    ensures PseudoDegrees(-d, 0.0) == 180.0 && PseudoDegrees(-d, -d) == -135.0
    ensures PseudoDegrees(0.0, -d) == -90.0 && PseudoDegrees(d, -d) == -45.0
  {
    assert Abs(d) == d && Abs(-d) == d && Abs(0.0) == 0.0;
    assert PseudoDegrees(0.0, d) == 90.0 by { QuotientBounds(d, 0.0 + d); }
    assert PseudoDegrees(0.0, -d) == -90.0 by { QuotientBounds(-d, 0.0 + d); }
    assert PseudoDegrees(d, d) == 45.0 by { Halves(d); }
    assert PseudoDegrees(-d, d) == 135.0 by { Halves(d); }
    assert PseudoDegrees(-d, -d) == -135.0 by { Halves(d); }
    assert PseudoDegrees(d, -d) == -45.0 by { Halves(d); }
  }

  lemma Halves(d: real)
    requires d > 0.0
    ensures d / (d + d) == 0.5 && -d / (d + d) == -0.5
  {
    QuotientCompare(d, d + d, 0.5);
    QuotientCompare(-d, d + d, -0.5);
  }

  /** |angle| < 45 exactly in the level sector. */
  lemma LevelSectorIff(dx: real, dy: real)
    ensures Abs(PseudoDegrees(dx, dy)) < 45.0 <==> InLevelSector(dx, dy)
  {
    if !(dx == 0.0 && dy == 0.0) {
      var s := Abs(dx) + Abs(dy);
      QuotientCompare(dy, s, 0.5);
      QuotientCompare(dy, s, -0.5);
      QuotientCompare(dy, s, 1.5);
      QuotientCompare(dy, s, -1.5);
    }
  }

  /** 45 <= angle <= 135 exactly in the down sector. */
  lemma DownSectorIff(dx: real, dy: real)
    ensures 45.0 <= PseudoDegrees(dx, dy) <= 135.0 <==> InDownSector(dx, dy)
  {
    if !(dx == 0.0 && dy == 0.0) {
      var s := Abs(dx) + Abs(dy);
      QuotientCompare(dy, s, 0.5);
      QuotientCompare(dy, s, 1.5);
    }
  }

  /** -135 <= angle <= -45 exactly in the up sector. */
  lemma UpSectorIff(dx: real, dy: real)
    ensures -135.0 <= PseudoDegrees(dx, dy) <= -45.0 <==> InUpSector(dx, dy)
  {
    if !(dx == 0.0 && dy == 0.0) {
      var s := Abs(dx) + Abs(dy);
      QuotientCompare(dy, s, -0.5);
      QuotientCompare(dy, s, -1.5);
    }
  }

  /** Every eye-line direction lies in exactly one sector. */
  lemma SectorsPartition(dx: real, dy: real)
    ensures InLevelSector(dx, dy) || InDownSector(dx, dy) || InUpSector(dx, dy) || InReversedSector(dx, dy)
    ensures !(InLevelSector(dx, dy) && InDownSector(dx, dy))
    ensures !(InLevelSector(dx, dy) && InUpSector(dx, dy))
    ensures !(InLevelSector(dx, dy) && InReversedSector(dx, dy))
    ensures !(InDownSector(dx, dy) && InUpSector(dx, dy))
    ensures !(InDownSector(dx, dy) && InReversedSector(dx, dy))
    ensures !(InUpSector(dx, dy) && InReversedSector(dx, dy))
  {
  }

  /** The final "fallback" branch is taken exactly in the reversed sector. */
  lemma ReversedSectorIff(dx: real, dy: real)
    ensures (var a := PseudoDegrees(dx, dy);
             !(Abs(a) < 45.0) && !(45.0 <= a <= 135.0) && !(-135.0 <= a <= -45.0))
            <==> InReversedSector(dx, dy)
  {
    LevelSectorIff(dx, dy);
    DownSectorIff(dx, dy);
    UpSectorIff(dx, dy);
    SectorsPartition(dx, dy);
  }

  predicate EyesAboveNoseAndMouth(k: Keypoints) {
    var eyeY := (k.eyeR.y + k.eyeL.y) / 2.0;
    eyeY < (k.mouthR.y + k.mouthL.y) / 2.0 && eyeY < k.nose.y
  }

  function EyeDx(k: Keypoints): real { k.eyeL.x - k.eyeR.x }
  function EyeDy(k: Keypoints): real { k.eyeL.y - k.eyeR.y }

  /** Which keypoint configurations give which rotation, in both directions. */
  lemma RotationAngleBySector(k: Keypoints)
    ensures GetRotationAngle(k) == 0 <==> InLevelSector(EyeDx(k), EyeDy(k)) && EyesAboveNoseAndMouth(k)
    ensures GetRotationAngle(k) == -90 <==> InDownSector(EyeDx(k), EyeDy(k))
    ensures GetRotationAngle(k) == 90 <==> InUpSector(EyeDx(k), EyeDy(k))
    ensures GetRotationAngle(k) == 180 <==>
      (InLevelSector(EyeDx(k), EyeDy(k)) && !EyesAboveNoseAndMouth(k)) || InReversedSector(EyeDx(k), EyeDy(k))
  {
    var dx, dy := EyeDx(k), EyeDy(k);
    LevelSectorIff(dx, dy);
    DownSectorIff(dx, dy);
    UpSectorIff(dx, dy);
    SectorsPartition(dx, dy);
  }

  /** Only the two eyes and the heights of the nose and mouth corners are
      read: moving the nose or mouth sideways never changes the answer. */
  lemma IgnoresNoseAndMouthX(k: Keypoints, noseX: real, mouthRX: real, mouthLX: real)
    ensures GetRotationAngle(k.(nose := Point(noseX, k.nose.y),
                                 mouthR := Point(mouthRX, k.mouthR.y),
                                 mouthL := Point(mouthLX, k.mouthL.y)))
         == GetRotationAngle(k)
  {
  }

  function Translate(k: Keypoints, tx: real, ty: real): Keypoints {
    var m := (p: Point) => Point(p.x + tx, p.y + ty);
    Keypoints(m(k.eyeR), m(k.eyeL), m(k.nose), m(k.mouthR), m(k.mouthL))
  }

  /** Shifting every keypoint by the same offset (a crop or a pad of the
      photograph) never changes the answer. */
  lemma TranslationInvariant(k: Keypoints, tx: real, ty: real)
    ensures GetRotationAngle(Translate(k, tx, ty)) == GetRotationAngle(k)
  {
    var k' := Translate(k, tx, ty);
    assert EyeDx(k') == EyeDx(k) && EyeDy(k') == EyeDy(k);
  }
}
