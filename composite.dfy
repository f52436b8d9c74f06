/** The pixel side of compose_blurred_image: copy the blurred background and
    paste the sharp foreground over the copy, in place. Pixels are generic;
    arrays are indexed [row, column], and PIL positions are (x, y) =
    (column, row). */
module Composite {
  import opened Compositing

  /** Does the foreground, pasted with its top-left corner at (x, y), cover
      the canvas pixel in row i, column j? */
  predicate Covers(x: int, y: int, fgWidth: int, fgHeight: int, i: int, j: int) {
    y <= i < y + fgHeight && x <= j < x + fgWidth
  }

  /** Image.copy: a new buffer holding the same pixels. */
  method CopyImage<T>(src: array2<T>) returns (dst: array2<T>)
    ensures fresh(dst)
    ensures dst.Length0 == src.Length0 && dst.Length1 == src.Length1
    ensures forall i, j :: 0 <= i < src.Length0 && 0 <= j < src.Length1 ==> dst[i, j] == src[i, j]
  {
    dst := new T[src.Length0, src.Length1]((i, j) requires 0 <= i < src.Length0 && 0 <= j < src.Length1 reads src => src[i, j]);
  }

  /** Image.paste(fg, (x, y)): the part of fg that falls on the canvas
      overwrites it, the part that falls outside is dropped, and every other
      canvas pixel keeps its value. */
  method Paste<T>(canvas: array2<T>, fg: array2<T>, x: int, y: int)
    requires canvas != fg
    modifies canvas
    ensures forall i, j :: 0 <= i < canvas.Length0 && 0 <= j < canvas.Length1 ==>
      canvas[i, j] == if Covers(x, y, fg.Length1, fg.Length0, i, j) then fg[i - y, j - x] else old(canvas[i, j])
  {
    var rowLo := if y < 0 then 0 else y;
    var rowHi := if y + fg.Length0 < canvas.Length0 then y + fg.Length0 else canvas.Length0;
    var colLo := if x < 0 then 0 else x;
    var colHi := if x + fg.Length1 < canvas.Length1 then x + fg.Length1 else canvas.Length1;
    if rowLo < rowHi && colLo < colHi {
      for i := rowLo to rowHi
        invariant forall r, c :: 0 <= r < canvas.Length0 && 0 <= c < canvas.Length1 ==>
          canvas[r, c] == if rowLo <= r < i && colLo <= c < colHi then fg[r - y, c - x] else old(canvas[r, c])
      {
        for j := colLo to colHi
          invariant forall r, c :: 0 <= r < canvas.Length0 && 0 <= c < canvas.Length1 ==>
            canvas[r, c] == if (rowLo <= r < i && colLo <= c < colHi) || (r == i && colLo <= c < j)
                            then fg[r - y, c - x] else old(canvas[r, c])
        {
          canvas[i, j] := fg[i - y, j - x];
        }
      }
    }
  }

  /** compose_blurred_image for an original image of size orig: the blurred
      background and the fitted foreground are arrays of the sizes that
      create_blurred_background and fit_image_to_size give (their pixels come
      from resampling and blurring), and the result is a copy of the
      background with the foreground pasted centred. */
  method ComposeBlurredImage<T>(orig: Size, target: Size, background: array2<T>, foreground: array2<T>)
    returns (composite: array2<T>)
    requires orig.width > 0 && orig.height > 0
    // the background is target-sized, as CreateBlurredBackground's crop is
    requires background.Length0 == target.height && background.Length1 == target.width
    requires Size(foreground.Length1, foreground.Length0) == FitImageToSize(orig, target, true)
    ensures fresh(composite)
    ensures composite.Length0 == target.height && composite.Length1 == target.width
    ensures var p := ForegroundPosition(target, Size(foreground.Length1, foreground.Length0));
      forall i, j :: 0 <= i < composite.Length0 && 0 <= j < composite.Length1 ==>
        composite[i, j] == if Covers(p.0, p.1, foreground.Length1, foreground.Length0, i, j)
                           then foreground[i - p.1, j - p.0] else background[i, j]
    // Nothing of the foreground is clipped: every foreground pixel shows,
    // centred on the canvas.
    ensures var p := ForegroundPosition(target, Size(foreground.Length1, foreground.Length0));
      forall r, c :: 0 <= r < foreground.Length0 && 0 <= c < foreground.Length1 ==>
        0 <= r + p.1 < composite.Length0 && 0 <= c + p.0 < composite.Length1 &&
        composite[r + p.1, c + p.0] == foreground[r, c]
  {
    composite := CopyImage(background);
    var p := ForegroundPosition(target, Size(foreground.Length1, foreground.Length0));
    Paste(composite, foreground, p.0, p.1);
  }
}
