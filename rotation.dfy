/** Images as rectangular grids of pixels and the three fixed rotations the
    photographs can be given: a clockwise quarter turn, a counter-clockwise
    quarter turn and a half turn. Row 0 is the top row. */
module ImageRotation {

  /** A height x width grid; pixels[i][j] is row i, column j. The shape is
      kept explicitly so that an image with no rows still has a width. */
  datatype Image<T> = Image(height: nat, width: nat, pixels: seq<seq<T>>) {
    predicate Valid() {
      |pixels| == height && forall i :: 0 <= i < height ==> |pixels[i]| == width
    }
  }

  /** Clockwise quarter turn: the left column becomes the top row. */
  function RotateClockwise<T>(img: Image<T>): (r: Image<T>)
    requires img.Valid()
    ensures r.Valid() && r.height == img.width && r.width == img.height
  {
    Image(img.width, img.height,
          seq(img.width, i requires 0 <= i < img.width =>
            seq(img.height, j requires 0 <= j < img.height => img.pixels[img.height - 1 - j][i])))
  }

  /** Counter-clockwise quarter turn: the right column becomes the top row. */
  function RotateCounterClockwise<T>(img: Image<T>): (r: Image<T>)
    requires img.Valid()
    ensures r.Valid() && r.height == img.width && r.width == img.height
  {
    Image(img.width, img.height,
          seq(img.width, i requires 0 <= i < img.width =>
            seq(img.height, j requires 0 <= j < img.height => img.pixels[j][img.width - 1 - i])))
  }

  /** Half turn: the image upside down and mirrored. */
  function RotateHalfTurn<T>(img: Image<T>): (r: Image<T>)
    requires img.Valid()
    ensures r.Valid() && r.height == img.height && r.width == img.width
  {
    Image(img.height, img.width,
          seq(img.height, i requires 0 <= i < img.height =>
            seq(img.width, j requires 0 <= j < img.width => img.pixels[img.height - 1 - i][img.width - 1 - j])))
  }

  /** The source's rotate_image: 90 turns clockwise, -90 counter-clockwise,
      180 a half turn, and every other angle (0 included) leaves the image
      as it is. */
  function RotateImage<T>(img: Image<T>, angle: int): (r: Image<T>)
    requires img.Valid()
    ensures r.Valid()
    ensures angle != 90 && angle != -90 && angle != 180 ==> r == img
    ensures angle == 90 || angle == -90 ==> r.height == img.width && r.width == img.height
    ensures angle == 180 ==> r.height == img.height && r.width == img.width
  {
    if angle == 0 then img
    else if angle == 90 then RotateClockwise(img)
    else if angle == -90 then RotateCounterClockwise(img)
    else if angle == 180 then RotateHalfTurn(img)
    else img
  }

  /** Two images of the same shape are equal when they agree on every pixel. */
  lemma SamePixels<T>(a: Image<T>, b: Image<T>)
    requires a.Valid() && b.Valid() && a.height == b.height && a.width == b.width
    requires forall i, j :: 0 <= i < a.height && 0 <= j < a.width ==> a.pixels[i][j] == b.pixels[i][j]
    ensures a == b
  {
    forall i | 0 <= i < a.height
      ensures a.pixels[i] == b.pixels[i]
    {
      assert forall j :: 0 <= j < a.width ==> a.pixels[i][j] == b.pixels[i][j];
    }
  }

  /** A clockwise quarter turn is undone by a counter-clockwise one. */
  lemma CounterClockwiseUndoesClockwise<T>(img: Image<T>)
    requires img.Valid()
    ensures RotateCounterClockwise(RotateClockwise(img)) == img
  {
    var r := RotateCounterClockwise(RotateClockwise(img));
    forall i, j | 0 <= i < img.height && 0 <= j < img.width
      ensures r.pixels[i][j] == img.pixels[i][j]
    {
    }
    SamePixels(r, img);
  }

  /** A counter-clockwise quarter turn is undone by a clockwise one. */
  lemma ClockwiseUndoesCounterClockwise<T>(img: Image<T>)
    requires img.Valid()
    ensures RotateClockwise(RotateCounterClockwise(img)) == img
  {
    var r := RotateClockwise(RotateCounterClockwise(img));
    forall i, j | 0 <= i < img.height && 0 <= j < img.width
      ensures r.pixels[i][j] == img.pixels[i][j]
    {
    }
    SamePixels(r, img);
  }

  /** A half turn is its own inverse. */
  lemma HalfTurnInvolution<T>(img: Image<T>)
    requires img.Valid()
    ensures RotateHalfTurn(RotateHalfTurn(img)) == img
  {
    var r := RotateHalfTurn(RotateHalfTurn(img));
    forall i, j | 0 <= i < img.height && 0 <= j < img.width
      ensures r.pixels[i][j] == img.pixels[i][j]
    {
    }
    SamePixels(r, img);
  }

  /** Two clockwise quarter turns make a half turn. */
  lemma TwoClockwiseMakeHalfTurn<T>(img: Image<T>)
    requires img.Valid()
    ensures RotateClockwise(RotateClockwise(img)) == RotateHalfTurn(img)
  {
    var r := RotateClockwise(RotateClockwise(img));
    var h := RotateHalfTurn(img);
    forall i, j | 0 <= i < img.height && 0 <= j < img.width
      ensures r.pixels[i][j] == h.pixels[i][j]
    {
    }
    SamePixels(r, h);
  }

  /** The rotation each of the classifier's answers undoes: the inverse of
      rotate_image by angle a is rotate_image by -a for a quarter turn, and
      a half turn again for 180. */
  function Inverse(angle: int): int {
    if angle == 90 || angle == -90 then -angle else angle
  }

  /** rotate_image by an angle and then by its inverse gives the image back,
      for every angle. */
  lemma RotateImageInverse<T>(img: Image<T>, angle: int)
    requires img.Valid()
    ensures RotateImage(RotateImage(img, angle), Inverse(angle)) == img
  {
    if angle == 90 {
      CounterClockwiseUndoesClockwise(img);
    } else if angle == -90 {
      ClockwiseUndoesCounterClockwise(img);
    } else if angle == 180 {
      HalfTurnInvolution(img);
    }
  }
}
