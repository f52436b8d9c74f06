/** Size arithmetic of the composite: a "cover" background (scaled to fill
    the target, then centre-cropped) and a "contain" foreground (scaled to
    fit inside the target), the foreground centred on the background.

    Scale factors are exact fractions of integers; int() on a scaled size
    truncates toward zero, as Python's int() does. */
module Compositing {

  /** width x height in pixels, as (width, height) tuples are in PIL. */
  datatype Size = Size(width: int, height: int)

  /** A PIL crop box: columns left..right-1, rows top..bottom-1. */
  datatype Box = Box(left: int, top: int, right: int, bottom: int)

  /** The size of the image that cropping to b produces. */
  function CroppedSize(b: Box): Size {
    Size(b.right - b.left, b.bottom - b.top)
  }

  /** An exact scale factor num / den, with den > 0. */
  datatype Fraction = Fraction(num: int, den: int)

  predicate Less(a: Fraction, b: Fraction) {
    a.num * b.den < b.num * a.den
  }

  /** Python's max(a, b) and min(a, b): on a tie the first argument wins. */
  function Max(a: Fraction, b: Fraction): (m: Fraction)
    requires a.den > 0 && b.den > 0
    ensures m == a || m == b
    ensures !Less(m, a) && !Less(m, b)
  {
    if Less(a, b) then b else a
  }

  function Min(a: Fraction, b: Fraction): (m: Fraction)
    requires a.den > 0 && b.den > 0
    ensures m == a || m == b
    ensures !Less(a, m) && !Less(b, m)
  {
    if Less(b, a) then b else a
  }

  /** int(num / den): the exact quotient truncated toward zero. */
  function Trunc(num: int, den: int): (q: int)
    requires den > 0
    ensures num >= 0 ==> q >= 0 && q * den <= num < q * den + den
    ensures num < 0 ==> q <= 0 && q * den - den < num <= q * den
  {
    if num >= 0 then
      DivBounds(num, den);
      num / den
    else
      DivBounds(-num, den);
      assert -((-num) / den) * den == -(((-num) / den) * den);
      -((-num) / den)
  }

  lemma DivBounds(n: int, d: int)
    requires n >= 0 && d > 0
    ensures n / d >= 0 && (n / d) * d <= n < (n / d) * d + d
  {
  }

  /** Integer division by a positive divisor keeps the order. */
  lemma DivMonotone(a: int, b: int, d: int)
    requires 0 <= a <= b && d > 0
    ensures a / d <= b / d
  {
    if a / d > b / d {
      assert d * (a / d) >= d * (b / d + 1) by { MulMonotone(d, b / d + 1, a / d); }
    }
  }

  lemma MulMonotone(d: int, x: int, y: int)
    requires d >= 0 && x <= y
    ensures d * x <= d * y
  {
  }

  /** Truncated division keeps the order. */
  lemma TruncMonotone(a: int, b: int, d: int)
    requires a <= b && d > 0
    ensures Trunc(a, d) <= Trunc(b, d)
  {
    if 0 <= a {
      DivMonotone(a, b, d);
    } else if b < 0 {
      DivMonotone(-b, -a, d);
    }
  }

  /** A multiple of the divisor divides exactly. */
  lemma TruncMultiple(k: int, d: int)
    requires d > 0
    ensures Trunc(k * d, d) == k
  {
    var q := Trunc(k * d, d);
    if q < k {
      MulMonotone(d, q + 1, k);
    } else if q > k {
      MulMonotone(d, k + 1, q);
    }
  }

  /** One side of the image multiplied by the scale factor, as int() gives
      it: the exact product len * num / den rounded toward zero. */
  function ScaleSide(len: int, scale: Fraction): (r: int)
    requires scale.den > 0
    ensures len * scale.num >= 0 ==> 0 <= r && r * scale.den <= len * scale.num < r * scale.den + scale.den
    ensures len * scale.num < 0 ==> r <= 0 && r * scale.den - scale.den < len * scale.num <= r * scale.den
  {
    Trunc(len * scale.num, scale.den)
  }

  /** Scaling a side by at least (at most, exactly) its ratio target / len
      makes it at least (at most, exactly) the target. */
  lemma ScaledSide(len: int, target: int, scale: Fraction)
    requires len > 0 && scale.den > 0
    ensures !Less(scale, Fraction(target, len)) ==> ScaleSide(len, scale) >= target
    ensures !Less(Fraction(target, len), scale) ==> ScaleSide(len, scale) <= target
    ensures scale == Fraction(target, len) ==> ScaleSide(len, scale) == target
  {
    TruncMultiple(target, scale.den);
    assert len * scale.num == scale.num * len;
    if !Less(scale, Fraction(target, len)) {
      TruncMonotone(target * scale.den, len * scale.num, scale.den);
    }
    if !Less(Fraction(target, len), scale) {
      TruncMonotone(len * scale.num, target * scale.den, scale.den);
    }
  }

  /** The size of the scaled image in create_blurred_background: both sides
      are multiplied by the larger of the two ratios target / original. */
  function CoverSize(orig: Size, target: Size): (r: Size)
    requires orig.width > 0 && orig.height > 0
    ensures r.width >= target.width && r.height >= target.height
    ensures r.width == target.width || r.height == target.height
  {
    var scale := Max(Fraction(target.width, orig.width), Fraction(target.height, orig.height));
    ScaledSide(orig.width, target.width, scale);
    ScaledSide(orig.height, target.height, scale);
    Size(ScaleSide(orig.width, scale), ScaleSide(orig.height, scale))
  }

  /** The cover size without fractions: the side whose ratio is larger
      becomes the target's, the other is scaled in proportion and rounded
      down. */
  lemma CoverSizeExact(orig: Size, target: Size)
    requires orig.width > 0 && orig.height > 0
    requires target.width >= 0 && target.height >= 0
    ensures CoverSize(orig, target) ==
      if target.height * orig.width > target.width * orig.height
      then Size(orig.width * target.height / orig.height, target.height)
      else Size(target.width, orig.height * target.width / orig.width)
  {
    ScaledSide(orig.width, target.width, Fraction(target.width, orig.width));
    ScaledSide(orig.height, target.height, Fraction(target.height, orig.height));
  }

  /** The centred crop box of create_blurred_background (// is floor
      division, which for the divisor 2 is Dafny's /). */
  function CenterCropBox(resized: Size, target: Size): (b: Box)
    ensures CroppedSize(b) == target
    ensures resized.width >= target.width ==> 0 <= b.left && b.right <= resized.width
    ensures resized.height >= target.height ==> 0 <= b.top && b.bottom <= resized.height
    ensures b.left <= resized.width - b.right <= b.left + 1
    ensures b.top <= resized.height - b.bottom <= b.top + 1
  {
    var left := (resized.width - target.width) / 2;
    var top := (resized.height - target.height) / 2;
    Box(left, top, left + target.width, top + target.height)
  }

  /** What create_blurred_background computes before resampling: the
      scaled size and the crop box taken from it. */
  datatype CoverPlan = CoverPlan(resized: Size, crop: Box)

  function CreateBlurredBackground(orig: Size, target: Size): (p: CoverPlan)
    requires orig.width > 0 && orig.height > 0
    ensures p.resized.width >= target.width && p.resized.height >= target.height
    ensures 0 <= p.crop.left && p.crop.right <= p.resized.width
    ensures 0 <= p.crop.top && p.crop.bottom <= p.resized.height
    ensures CroppedSize(p.crop) == target
  {
    var resized := CoverSize(orig, target);
    CoverPlan(resized, CenterCropBox(resized, target))
  }

  /** fit_image_to_size: without aspect the target itself; with it, both
      sides multiplied by the smaller of the two ratios. */
  function FitImageToSize(orig: Size, target: Size, maintainAspect: bool): (r: Size)
    requires maintainAspect ==> orig.width > 0 && orig.height > 0
    ensures !maintainAspect ==> r == target
    ensures maintainAspect ==> r.width <= target.width && r.height <= target.height
    ensures maintainAspect ==> r.width == target.width || r.height == target.height
  {
    if !maintainAspect then target
    else
      var scale := Min(Fraction(target.width, orig.width), Fraction(target.height, orig.height));
      ScaledSide(orig.width, target.width, scale);
      ScaledSide(orig.height, target.height, scale);
      Size(ScaleSide(orig.width, scale), ScaleSide(orig.height, scale))
  }

  /** The contain size without fractions: the side whose ratio is smaller
      becomes the target's, the other is scaled in proportion and rounded
      down. */
  lemma FitSizeExact(orig: Size, target: Size)
    requires orig.width > 0 && orig.height > 0
    requires target.width >= 0 && target.height >= 0
    ensures FitImageToSize(orig, target, true) ==
      if target.height * orig.width < target.width * orig.height
      then Size(orig.width * target.height / orig.height, target.height)
      else Size(target.width, orig.height * target.width / orig.width)
  {
    ScaledSide(orig.width, target.width, Fraction(target.width, orig.width));
    ScaledSide(orig.height, target.height, Fraction(target.height, orig.height));
  }

  /** Positive sizes do not keep both sides positive: a very wide image
      fitted into a square loses its height entirely. */
  lemma ThinImageLosesASide()
    ensures FitImageToSize(Size(1000, 1), Size(100, 100), true) == Size(100, 0)
  {
    FitSizeExact(Size(1000, 1), Size(100, 100));
  }

  /** Where compose_blurred_image pastes the foreground: its top-left
      corner, centred in the target (x first, as in PIL). */
  function ForegroundPosition(target: Size, fg: Size): (p: (int, int))
    ensures fg.width <= target.width ==> 0 <= p.0 && p.0 + fg.width <= target.width
    ensures fg.height <= target.height ==> 0 <= p.1 && p.1 + fg.height <= target.height
    ensures p.0 <= target.width - (p.0 + fg.width) <= p.0 + 1
    ensures p.1 <= target.height - (p.1 + fg.height) <= p.1 + 1
  {
    ((target.width - fg.width) / 2, (target.height - fg.height) / 2)
  }
}
