/** Per-image step of the uprighting tool: classify the first detected face,
    rotate the photograph by the chosen angle, and the proof that this undoes
    any quarter or half turn the photograph of an upright face was given. */
module Upright {
  import opened Orientation
  import opened ImageRotation

  datatype Option<T> = None | Some(value: T)

  /** Where a keypoint at (x, y) of a height x width image lands when the
      image is given rotate_image(angle) (MovePointFollowsPixel). */
  function MovePoint(p: Point, angle: int, height: nat, width: nat): Point {
    if angle == 90 then Point(height as real - 1.0 - p.y, p.x)
    else if angle == -90 then Point(p.y, width as real - 1.0 - p.x)
    else if angle == 180 then Point(width as real - 1.0 - p.x, height as real - 1.0 - p.y)
    else p
  }

  function MoveKeypoints(k: Keypoints, angle: int, height: nat, width: nat): Keypoints {
    Keypoints(MovePoint(k.eyeR, angle, height, width), MovePoint(k.eyeL, angle, height, width),
              MovePoint(k.nose, angle, height, width),
              MovePoint(k.mouthR, angle, height, width), MovePoint(k.mouthL, angle, height, width))
  }

  /** The keypoint map follows the pixels: the pixel in row y, column x of
      the image is found, after rotate_image(angle), in the row and column
      MovePoint gives for (x, y). */
  lemma MovePointFollowsPixel<T>(img: Image<T>, x: nat, y: nat)
    requires img.Valid() && y < img.height && x < img.width
    ensures MovePoint(Point(x as real, y as real), 90, img.height, img.width) == Point((img.height - 1 - y) as real, x as real)
    ensures RotateImage(img, 90).pixels[x][img.height - 1 - y] == img.pixels[y][x]
    ensures MovePoint(Point(x as real, y as real), -90, img.height, img.width) == Point(y as real, (img.width - 1 - x) as real)
    ensures RotateImage(img, -90).pixels[img.width - 1 - x][y] == img.pixels[y][x]
    ensures MovePoint(Point(x as real, y as real), 180, img.height, img.width) ==
            Point((img.width - 1 - x) as real, (img.height - 1 - y) as real)
    ensures RotateImage(img, 180).pixels[img.height - 1 - y][img.width - 1 - x] == img.pixels[y][x]
  {
  }

  /** An upright face: the eye line tilts by less than 45 degrees, the left
      eye on the right of the picture, and the eyes above nose and mouth. */
  predicate IsUpright(k: Keypoints) {
    EyeDx(k) > Abs(EyeDy(k)) && EyesAboveNoseAndMouth(k)
  }

  /** The classifier answers an upright face with 0, and a face turned by a
      quarter or half turn with exactly the rotation that turns it back. */
  lemma ClassifierUndoesTurn(k: Keypoints, turn: int, height: nat, width: nat)
    requires IsUpright(k)
    requires turn == 0 || turn == 90 || turn == -90 || turn == 180
    ensures GetRotationAngle(MoveKeypoints(k, turn, height, width)) == Inverse(turn)
  {
    var m := MoveKeypoints(k, turn, height, width);
    RotationAngleBySector(m);
    if turn == 90 {
      assert InDownSector(EyeDx(m), EyeDy(m));
    } else if turn == -90 {
      assert InUpSector(EyeDx(m), EyeDy(m));
    } else if turn == 180 {
      assert InReversedSector(EyeDx(m), EyeDy(m));
    } else {
      assert InLevelSector(EyeDx(m), EyeDy(m)) && EyesAboveNoseAndMouth(m);
    }
  }

  /** Classify, then rotate by the answer: the photograph of an upright face
      that was turned by any of the four rotations comes back unchanged. */
  lemma CorrectionRestoresUpright<T>(img: Image<T>, k: Keypoints, turn: int)
    requires img.Valid() && IsUpright(k)
    requires turn == 0 || turn == 90 || turn == -90 || turn == 180
    ensures RotateImage(RotateImage(img, turn), GetRotationAngle(MoveKeypoints(k, turn, img.height, img.width))) == img
  {
    ClassifierUndoesTurn(k, turn, img.height, img.width);
    RotateImageInverse(img, turn);
  }

  /** What process_image does with one file, apart from reading and saving:
      an unreadable file and a file without a face are skipped; otherwise
      the first face's keypoints choose the rotation. */
  datatype Outcome<T> = Unreadable | NoFace | Saved(angle: int, image: Image<T>)

  /** img is the decoded file (None if it could not be read), faces the
      detector's answer, in the detector's order. */
  function ProcessImage<T>(img: Option<Image<T>>, faces: seq<Keypoints>): (o: Outcome<T>)
    requires img.Some? ==> img.value.Valid()
    ensures o.Unreadable? <==> img.None?
    ensures o.NoFace? <==> img.Some? && faces == []
    ensures o.Saved? ==> o.image.Valid() && (o.angle == 0 || o.angle == 90 || o.angle == -90 || o.angle == 180)
    ensures o.Saved? && o.angle == 0 ==> o.image == img.value
  {
    match img
    case None => Unreadable
    case Some(pic) =>
      if faces == [] then NoFace
      else
        var angle := GetRotationAngle(faces[0]);
        Saved(angle, RotateImage(pic, angle))
  }

  /** End to end: when the first detected face is an upright face seen in a
      turned photograph, the saved image is the upright photograph. */
  lemma ProcessImageRestoresUpright<T>(img: Image<T>, k: Keypoints, turn: int, others: seq<Keypoints>)
    requires img.Valid() && IsUpright(k)
    requires turn == 0 || turn == 90 || turn == -90 || turn == 180
    ensures ProcessImage(Some(RotateImage(img, turn)), [MoveKeypoints(k, turn, img.height, img.width)] + others)
         == Saved(Inverse(turn), img)
  {
    CorrectionRestoresUpright(img, k, turn);
    ClassifierUndoesTurn(k, turn, img.height, img.width);
  }
}
