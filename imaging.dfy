/**
 * The geometry decisions of `optimize_image`: colour-mode normalisation, the
 * EXIF orientation rotation and the "shrink only if over the envelope" rule,
 * with Pillow's `thumbnail` aspect rule for the new size. Pixels are abstract:
 * an image is its mode, its dimensions and the orientation its EXIF block
 * carries.
 */
module Imaging {
  import opened Wrappers

  /** Pillow colour modes; `Other` stands for every mode not named here (P, CMYK, 1, I, F, ...). */
  datatype Mode = RGB | L | RGBA | LA | Other

  /** Decoded images have at least one pixel in each direction. */
  type Dim = n: int | n >= 1 witness 1

  /**
   * An open image. `orientation` is what `img._getexif().get(274)` yields;
   * None when there is no EXIF block, no orientation tag, or the image object
   * has no `_getexif` (as for the images that `Image.new` and `convert` return).
   */
  datatype Image = Image(mode: Mode, width: Dim, height: Dim, orientation: Option<int>)

  /** The bounding box handed to `optimize_image`. */
  datatype Envelope = Envelope(maxWidth: Dim, maxHeight: Dim)

  /**
   * The mode step: RGBA and LA are pasted onto a new white RGB canvas of the
   * same size, other modes but RGB and L are converted to RGB, RGB and L are
   * kept. Both replacements are fresh images without an EXIF reader.
   */
  function NormalizeMode(img: Image): Image
  {
    if img.mode == RGBA || img.mode == LA then Image(RGB, img.width, img.height, None)
    else if img.mode != RGB && img.mode != L then Image(RGB, img.width, img.height, None)
    else img
  }

  /** The counter-clockwise angle `optimize_image` rotates by for an orientation code. */
  function RotationAngle(orientation: Option<int>): (angle: nat)
    ensures angle in {0, 90, 180, 270}
    ensures orientation == Some(3) <==> angle == 180
    ensures orientation == Some(6) <==> angle == 270
    ensures orientation == Some(8) <==> angle == 90
  {
    match orientation
    case Some(3) => 180
    case Some(6) => 270
    case Some(8) => 90
    case _ => 0
  }

  /** `img.rotate(angle, expand=True)`; the result carries no EXIF orientation. */
  function Rotate(img: Image, angle: nat): Image
  {
    if angle == 90 || angle == 270 then Image(img.mode, img.height, img.width, None)
    else if angle == 180 then Image(img.mode, img.width, img.height, None)
    else img
  }

  /** The step guarded by `if img.size[0] > max_size[0] or img.size[1] > max_size[1]`. */
  predicate OverEnvelope(w: int, h: int, env: Envelope)
  {
    w > env.maxWidth || h > env.maxHeight
  }

  predicate Fits(w: int, h: int, env: Envelope)
  {
    w <= env.maxWidth && h <= env.maxHeight
  }

  /**
   * `round_aspect(max_h * aspect, key=lambda n: abs(aspect - n / max_h))`:
   * the integer nearest to `max_h * w / h`, the lower one on a tie, at least 1.
   */
  function ScaledWidth(w: Dim, h: Dim, maxH: Dim): Dim
  {
    var q := w * maxH / h;
    var r := w * maxH % h;
    var n := if 2 * r <= h then q else q + 1;
    if n < 1 then 1 else n
  }

  /**
   * `round_aspect(max_w / aspect, key=lambda n: 0 if n == 0 else abs(aspect - max_w / n))`:
   * the floor or the ceiling of `max_w * h / w`, whichever gives the closer
   * aspect ratio (the floor on a tie, and always when the floor is 0), at least 1.
   */
  function ScaledHeight(w: Dim, h: Dim, maxW: Dim): Dim
  {
    var q := maxW * h / w;
    var r := maxW * h % w;
    var n := if r == 0 || q == 0 || r * (q + 1) <= (w - r) * q then q else q + 1;
    if n < 1 then 1 else n
  }

  /**
   * `Image.thumbnail(max_size)`: the size that preserves the aspect ratio and
   * fills the envelope along the limiting side.
   */
  function ThumbnailSize(w: Dim, h: Dim, env: Envelope): (Dim, Dim)
  {
    if env.maxWidth * h >= w * env.maxHeight then (ScaledWidth(w, h, env.maxHeight), env.maxHeight)
    else (env.maxWidth, ScaledHeight(w, h, env.maxWidth))
  }

  /** The resize step. */
  function Shrink(img: Image, env: Envelope): Image
  {
    if OverEnvelope(img.width, img.height, env) then
      var (w, h) := ThumbnailSize(img.width, img.height, env);
      Image(img.mode, w, h, img.orientation)
    else img
  }

  /**
   * `optimize_image` as a value: the image written, or None when it returns
   * False. `decoded` is `Image.open` (None where it raises) and `saved` says
   * whether the JPEG encoder succeeds.
   */
  function Optimized(decoded: Option<Image>, env: Envelope, saved: bool): Option<Image>
  {
    if decoded.None? || !saved then None
    else
      var img := NormalizeMode(decoded.value);
      Some(Shrink(Rotate(img, RotationAngle(img.orientation)), env))
  }

  /** `optimize_image`, rebinding `img` step by step as the source does. */
  method OptimizeImage(decoded: Option<Image>, env: Envelope, saved: bool) returns (written: Option<Image>)
    ensures written == Optimized(decoded, env, saved)
    ensures written.Some? <==> decoded.Some? && saved
    ensures written.Some? ==> written.value.mode == RGB || written.value.mode == L
    ensures written.Some? ==> Fits(written.value.width, written.value.height, env)
  {
    if decoded.None? {
      return None;
    }
    var img := decoded.value;
    if img.mode == RGBA || img.mode == LA {
      img := Image(RGB, img.width, img.height, None);
    } else if img.mode != RGB && img.mode != L {
      img := Image(RGB, img.width, img.height, None);
    }
    if img.orientation == Some(3) {
      img := Rotate(img, 180);
    } else if img.orientation == Some(6) {
      img := Rotate(img, 270);
    } else if img.orientation == Some(8) {
      img := Rotate(img, 90);
    }
    if OverEnvelope(img.width, img.height, env) {
      var (w, h) := ThumbnailSize(img.width, img.height, env);
      ThumbnailFits(img.width, img.height, env);
      img := Image(img.mode, w, h, img.orientation);
    }
    if !saved {
      return None;
    }
    written := Some(img);
  }

  // ---------------------------------------------------------------------
  // Lemmas
  // ---------------------------------------------------------------------

  lemma MulLessLeft(k: int, a: int, b: int)
    requires k >= 1 && a < b
    ensures k * a < k * b
  {
    assert k * b == k * a + k * (b - a);
  }

  lemma MulCancelLess(a: int, b: int, c: int)
    requires c >= 1 && a * c < b * c
    ensures a < b
  {
    assert a * c == b * c + (a - b) * c;
  }

  /** When the envelope's aspect is at least the image's, the image is too tall and the floor width fits. */
  lemma HeightLimited(w: int, h: int, mw: int, mh: int)
    requires w >= 1 && h >= 1 && mw >= 1 && mh >= 1
    requires mw * h >= w * mh && (w > mw || h > mh)
    ensures h > mh
    ensures w * mh / h < w && w * mh / h <= mw
    ensures w * mh % h > 0 ==> w * mh / h < mw
  {
    if h <= mh {
      assert w > mw;
      if h < mh { MulLessLeft(w, h, mh); }
      MulLessLeft(h, mw, w);
      assert false;
    }
    var q, r := w * mh / h, w * mh % h;
    assert q * h + r == w * mh;
    MulLessLeft(w, mh, h);
    MulCancelLess(q, w, h);
    MulCancelLess(q, mw + 1, h);
    if r > 0 {
      MulCancelLess(q, mw, h);
    }
  }

  /** Otherwise the image is too wide and the floor height is below both heights. */
  lemma WidthLimited(w: int, h: int, mw: int, mh: int)
    requires w >= 1 && h >= 1 && mw >= 1 && mh >= 1
    requires mw * h < w * mh && (w > mw || h > mh)
    ensures w > mw
    ensures mw * h / w < mh && mw * h / w < h
  {
    if w <= mw {
      assert h > mh;
      if w < mw { MulLessLeft(h, w, mw); }
      MulLessLeft(w, mh, h);
      assert false;
    }
    var q, r := mw * h / w, mw * h % w;
    assert q * w + r == mw * h;
    MulCancelLess(q, mh, w);
    MulLessLeft(h, mw, w);
    MulCancelLess(q, h, w);
  }

  /**
   * A thumbnail of an over-size image fits the envelope, is no larger than
   * the original in either direction, reaches the envelope on the limiting
   * side, and rounds the other side from its exact aspect-preserving value.
   */
  lemma ThumbnailFits(w: Dim, h: Dim, env: Envelope)
    requires OverEnvelope(w, h, env)
    ensures var (tw, th) := ThumbnailSize(w, h, env);
      && Fits(tw, th, env) && tw <= w && th <= h
      && (tw == env.maxWidth || th == env.maxHeight)
    ensures var (tw, th) := ThumbnailSize(w, h, env);
      if env.maxWidth * h >= w * env.maxHeight
      then th == env.maxHeight && (tw == 1 || w * env.maxHeight / h <= tw <= w * env.maxHeight / h + 1)
      else tw == env.maxWidth && (th == 1 || env.maxWidth * h / w <= th <= env.maxWidth * h / w + 1)
  {
    var mw, mh := env.maxWidth as int, env.maxHeight as int;
    if mw * h >= w * mh {
      HeightLimited(w, h, mw, mh);
    } else {
      WidthLimited(w, h, mw, mh);
    }
  }

  /** The output mode is RGB or L: RGB and L stay, every other mode becomes RGB. */
  lemma OptimizedMode(decoded: Option<Image>, env: Envelope, saved: bool)
    requires decoded.Some? && saved
    ensures Optimized(decoded, env, saved).Some?
    ensures var m := Optimized(decoded, env, saved).value.mode;
      m == (if decoded.value.mode == L then L else RGB)
  {
  }

  /**
   * Rotation happens only to an image whose mode was already RGB or L (any
   * replacement image has no EXIF reader): orientation 3 keeps the dimensions,
   * 6 and 8 swap them, anything else is no rotation. The shrink then applies
   * to the rotated dimensions.
   */
  lemma OptimizedOrientation(decoded: Option<Image>, env: Envelope, saved: bool)
    requires decoded.Some? && saved
    ensures var img := decoded.value;
      var turned := img.mode in {RGB, L} && (img.orientation == Some(6) || img.orientation == Some(8));
      var (w, h) := if turned then (img.height, img.width) else (img.width, img.height);
      var out := Optimized(decoded, env, saved).value;
      if OverEnvelope(w, h, env) then (out.width, out.height) == ThumbnailSize(w, h, env)
      else out.width == w && out.height == h
  {
  }

  /** An image inside the envelope is written at its own (rotated) size; a larger one is shrunk. */
  lemma ShrinkOnlyIfOver(img: Image, env: Envelope)
    ensures Fits(img.width, img.height, env) ==> Shrink(img, env) == img
    ensures Fits(Shrink(img, env).width, Shrink(img, env).height, env)
    ensures Shrink(img, env).width <= img.width && Shrink(img, env).height <= img.height
    ensures Shrink(img, env).mode == img.mode
  {
    if OverEnvelope(img.width, img.height, env) {
      ThumbnailFits(img.width, img.height, env);
    }
  }

  /** A 4000x3000 landscape shrinks to 400x300 in the 400x533 thumbnail box and to 2000x1500 in the full box. */
  lemma ThumbnailExamples()
    ensures ThumbnailSize(4000, 3000, Envelope(400, 533)) == (400, 300)
    ensures ThumbnailSize(4000, 3000, Envelope(2000, 2000)) == (2000, 1500)
    ensures ThumbnailSize(3000, 4000, Envelope(400, 533)) == (400, 533)
  {
  }
}
