/**
 * The processors of processor.go: the MaxSize fitting arithmetic, the Resize
 * processor and the stateful Round processor with its roundTo mask draw.
 */
module Processors {
  import opened Geometry
  import opened Images

  /**
   * The code outside the core, as functions the model is given:
   * resize is imaging.Resize(img, w, h, imaging.Lanczos), cropTop is
   * imaging.CropAnchor(img, w, h, imaging.Top), maskBounds(r) is the bounds of
   * the mask circle.New(r), inside(r, q) says that this mask lets the source
   * through at mask point q, and custom(id, img) is the caller's own processor
   * number id.
   */
  datatype Lib = Lib(
    resize: (Image, int, int) -> Image,
    cropTop: (Image, int, int) -> Image,
    maskBounds: int -> Rect,
    inside: (int, Point) -> bool,
    custom: (nat, Image) -> Image)

  /**
   * What the model relies on about the library code. The resampler returns an NRGBA
   * image of the requested size at the origin when both sides asked for and both
   * sides of the source are positive, and an empty one when a side asked for is
   * negative, both are zero or the source is empty. (With exactly one side zero it
   * keeps the aspect ratio, which is left open here.) The cropper returns an NRGBA
   * image of the requested size at the origin, or an empty one when a side asked for
   * is zero. A mask lets nothing through outside its own bounds.
   */
  ghost predicate Sound(lib: Lib) {
    (forall img: Image, w: int, h: int :: 0 < w && 0 < h && 0 < img.rect.Dx() && 0 < img.rect.Dy() ==>
      lib.resize(img, w, h).rect == Origin(w, h) && lib.resize(img, w, h).model == NrgbaModel) &&
    (forall img: Image, w: int, h: int :: w < 0 || h < 0 || (w == 0 && h == 0) || img.rect.Dx() == 0 || img.rect.Dy() == 0 ==>
      lib.resize(img, w, h).rect == Origin(0, 0) && lib.resize(img, w, h).model == NrgbaModel) &&
    (forall img: Image, w: int, h: int :: 0 <= w <= img.rect.Dx() && 0 <= h <= img.rect.Dy() ==>
      lib.cropTop(img, w, h).rect == (if w == 0 || h == 0 then Origin(0, 0) else Origin(w, h)) &&
      lib.cropTop(img, w, h).model == NrgbaModel) &&
    (forall r: int, q: Point :: lib.inside(r, q) ==> lib.maskBounds(r).Contains(q))
  }

  // ---------------------------------------------------------------- MaxSize

  /** Go's integer division: it truncates toward zero. */
  function Quot(a: int, b: int): (q: int)
    requires b != 0
    ensures 0 <= a && 0 < b ==> q == a / b
    ensures (a < 0) != (b < 0) ==> q <= 0
  {
    if 0 <= a && 0 < b then a / b
    else if a < 0 && b < 0 then (-a) / (-b)
    else if a < 0 then -((-a) / b)
    else -(a / (-b))
  }

  /** The early return holds: both sides are strictly below their maxima. */
  predicate Fits(w: int, h: int, maxW: int, maxH: int) {
    w < maxW && h < maxH
  }

  /** MaxSize does not divide by zero (which is a run-time panic in Go). */
  predicate MaxSizeDefined(w: int, h: int, maxW: int, maxH: int) {
    Fits(w, h, maxW, maxH) || (if w > h then w != 0 else h != 0)
  }

  /** MaxSize: the width and height to resample to. */
  function MaxSize(w: int, h: int, maxW: int, maxH: int): (int, int)
    requires MaxSizeDefined(w, h, maxW, maxH)
  {
    if Fits(w, h, maxW, maxH) then (w, h)
    else if w > h then (maxW, Quot(h * maxW, w))
    else (Quot(w * maxH, h), maxH)
  }

  /** Sizes of real images and positive maxima never make MaxSize divide by zero. */
  lemma MaxSizeDefinedOnImages(w: nat, h: nat, maxW: int, maxH: int)
    requires 0 < maxW && 0 < maxH
    ensures MaxSizeDefined(w, h, maxW, maxH)
  {
  }

  /** Both sides strictly below their maxima: the size comes back unchanged. */
  lemma MaxSizeKeepsFitting(w: int, h: int, maxW: int, maxH: int)
    requires w < maxW && h < maxH
    ensures MaxSizeDefined(w, h, maxW, maxH) && MaxSize(w, h, maxW, maxH) == (w, h)
  {
  }

  /**
   * Outside the early return a wider-than-tall image gets the maximum width and
   * the height h * maxW / w, truncated.
   */
  lemma MaxSizeWide(w: int, h: int, maxW: int, maxH: int)
    requires !Fits(w, h, maxW, maxH) && w > h >= 0 && maxW >= 0
    ensures MaxSizeDefined(w, h, maxW, maxH)
    ensures var (w', h') := MaxSize(w, h, maxW, maxH);
      w' == maxW && 0 <= h' && h' * w <= h * maxW < (h' + 1) * w
  {
    var q := (h * maxW) / w;
    assert h * maxW == q * w + (h * maxW) % w;
  }

  /**
   * Outside the early return every other image, the square one included, gets the
   * maximum height and the width w * maxH / h, truncated.
   */
  lemma MaxSizeTall(w: int, h: int, maxW: int, maxH: int)
    requires !Fits(w, h, maxW, maxH) && 0 <= w <= h && 0 < h && maxH >= 0
    ensures MaxSizeDefined(w, h, maxW, maxH)
    ensures var (w', h') := MaxSize(w, h, maxW, maxH);
      h' == maxH && 0 <= w' && w' * h <= w * maxH < (w' + 1) * h
  {
    var q := (w * maxH) / h;
    assert w * maxH == q * h + (w * maxH) % h;
  }

  /** A side equal to its maximum takes the scaling path, which here doubles both sides. */
  lemma MaxSizeEqualSideScales()
    ensures MaxSizeDefined(5, 5, 5, 10) && MaxSize(5, 5, 5, 10) == (10, 10)
  {
  }

  /** The truncation can ask the resampler for a zero side: a 1000 x 1 image under Resize(100, 100). */
  lemma MaxSizeCanAskForZeroSide()
    ensures MaxSizeDefined(1000, 1, 100, 100) && MaxSize(1000, 1, 100, 100) == (100, 0)
  {
  }

  /** The axis is chosen by w > h, not by which side overflows: this call enlarges. */
  lemma MaxSizeCanEnlarge()
    ensures MaxSizeDefined(10, 50, 5, 1000) && MaxSize(10, 50, 5, 1000) == (200, 1000)
  {
  }

  // ---------------------------------------------------------------- Resize

  /** The processor Resize(maxW, maxH) applied to img. */
  function ResizeApply(maxW: int, maxH: int, img: Image, lib: Lib): Image
    requires MaxSizeDefined(img.rect.Dx(), img.rect.Dy(), maxW, maxH)
  {
    var (w, h) := MaxSize(img.rect.Dx(), img.rect.Dy(), maxW, maxH);
    lib.resize(img, w, h)
  }

  /**
   * Resize asks the resampler for the MaxSize of the image's size, which is never
   * negative: the result has that size when both its sides are positive, and an
   * empty image gives an empty result.
   */
  lemma ResizeToMaxSize(maxW: int, maxH: int, img: Image, lib: Lib)
    requires Sound(lib) && 0 < maxW && 0 < maxH
    ensures MaxSizeDefined(img.rect.Dx(), img.rect.Dy(), maxW, maxH)
    ensures var (w, h) := MaxSize(img.rect.Dx(), img.rect.Dy(), maxW, maxH);
      0 <= w && 0 <= h &&
      (0 < w && 0 < h && 0 < img.rect.Dx() && 0 < img.rect.Dy() ==> ResizeApply(maxW, maxH, img, lib).rect == Origin(w, h)) &&
      (img.rect.Dx() == 0 || img.rect.Dy() == 0 ==> ResizeApply(maxW, maxH, img, lib).rect == Origin(0, 0))
  {
    var dx, dy := img.rect.Dx(), img.rect.Dy();
    MaxSizeDefinedOnImages(dx, dy, maxW, maxH);
    var (w, h) := MaxSize(dx, dy, maxW, maxH);
    if !Fits(dx, dy, maxW, maxH) {
      if dx > dy { MaxSizeWide(dx, dy, maxW, maxH); } else { MaxSizeTall(dx, dy, maxW, maxH); }
    }
    assert 0 <= w && 0 <= h;
    assert ResizeApply(maxW, maxH, img, lib) == lib.resize(img, w, h);
  }

  // ---------------------------------------------------------------- roundTo

  /**
   * The points roundTo writes: the source's bounds, clipped to the destination and
   * to the source and the mask of radius r as they are aligned with it, both moved
   * by the source's Min.
   */
  function MaskArea(dstRect: Rect, src: Image, r: int, lib: Lib): set<Point> {
    var o := src.rect.min;
    Points(dstRect) * Points(src.rect) * Points(src.rect.Add(o)) * Points(lib.maskBounds(r).Add(o))
  }

  /**
   * The pixels of dst after the masked Src draw of roundTo: a point p of the area
   * reads source and mask at p - src.Bounds().Min and gets the source's pixel where
   * the mask lets it through and a zero pixel where it does not; every other point
   * of dst keeps its pixel.
   */
  function MaskPix(dst: map<Point, Color>, dstRect: Rect, src: Image, r: int, lib: Lib): (m: map<Point, Color>)
    ensures m.Keys == dst.Keys + MaskArea(dstRect, src, r, lib)
    ensures forall p :: p in MaskArea(dstRect, src, r, lib) ==>
      m[p] == if lib.inside(r, p.Sub(src.rect.min)) then src.At(p.Sub(src.rect.min)) else Blank
    ensures forall p :: p in dst && p !in MaskArea(dstRect, src, r, lib) ==> m[p] == dst[p]
  {
    var o := src.rect.min;
    dst + map p | p in MaskArea(dstRect, src, r, lib) :: if lib.inside(r, p.Sub(o)) then src.At(p.Sub(o)) else Blank
  }

  /** roundTo(src, dst, r): the masked Src draw into dst, in place. */
  method RoundTo(src: Image, dst: Canvas, r: int, lib: Lib)
    modifies dst
    ensures dst.pix == MaskPix(old(dst.pix), dst.rect, src, r, lib)
  {
    dst.pix := MaskPix(dst.pix, dst.rect, src, r, lib);
  }

  // ---------------------------------------------------------------- Round

  /** The supersampling factor of the antialiased path. */
  const Scale := 2

  /** The captured antialias flag after one call: a paletted input clears it for good. */
  function NextAntialias(antialias: bool, img: Image): bool {
    !img.Paletted() && antialias
  }

  /** A fresh side x side NRGBA buffer into which roundTo has drawn src with radius r. */
  function MaskedSquare(src: Image, side: nat, r: int, lib: Lib): Image {
    var rect := Origin(side, side);
    Image(NrgbaModel, rect, MaskPix(Fill(rect, Blank), rect, src, r, lib))
  }

  /** The side of the square Round crops to: the smaller of the two sides. */
  function MinSide(img: Image): nat {
    Min(img.rect.Dx(), img.rect.Dy())
  }

  /** What one call of a Round processor whose captured flag is antialias returns. */
  function Rounded(antialias: bool, img: Image, lib: Lib): Image {
    var aa := NextAntialias(antialias, img);
    var mind := MinSide(img);
    var square := lib.cropTop(img, mind, mind);
    if aa then
      var side := mind * Scale;
      lib.resize(MaskedSquare(lib.resize(square, side, side), side, side / 2, lib), side / Scale, side / Scale)
    else
      MaskedSquare(square, mind, mind / 2, lib)
  }

  /** The result is a square whose side is the input's smaller side, on both paths. */
  lemma RoundedIsSquare(antialias: bool, img: Image, lib: Lib)
    requires Sound(lib)
    ensures Rounded(antialias, img, lib).rect == Origin(MinSide(img), MinSide(img))
  {
  }

  /** A paletted input is masked at native size and returned without resampling. */
  lemma RoundedPalettedNotResampled(antialias: bool, img: Image, lib: Lib)
    requires img.Paletted()
    ensures var m := MinSide(img);
      Rounded(antialias, img, lib) == MaskedSquare(lib.cropTop(img, m, m), m, m / 2, lib)
  {
  }

  /**
   * The antialiased path masks the square upscaled to twice its side, with the
   * radius of that doubled side, and scales the result back to the original side.
   */
  lemma RoundedAntialiased(antialias: bool, img: Image, lib: Lib)
    requires NextAntialias(antialias, img)
    ensures var m := MinSide(img);
      Rounded(antialias, img, lib) ==
        lib.resize(MaskedSquare(lib.resize(lib.cropTop(img, m, m), 2 * m, 2 * m), 2 * m, m, lib), m, m)
  {
    var m := MinSide(img);
    assert m * Scale == 2 * m && (2 * m) / 2 == m && (2 * m) / Scale == m;
  }

  /**
   * Without antialiasing every pixel of the result inside the circle is the cropped
   * square's pixel and every pixel outside it is a zero pixel: none keeps a source colour.
   */
  lemma RoundedMasksCircle(antialias: bool, img: Image, lib: Lib, p: Point)
    requires Sound(lib) && !NextAntialias(antialias, img)
    requires Origin(MinSide(img), MinSide(img)).Contains(p)
    ensures var m := MinSide(img);
      Rounded(antialias, img, lib).At(p) ==
        if lib.inside(m / 2, p) then lib.cropTop(img, m, m).At(p) else Blank
  {
    var m := MinSide(img);
    var square := lib.cropTop(img, m, m);
    var o := square.rect.min;
    assert square.rect == Origin(m, m);
    assert p.Sub(o) == p && lib.maskBounds(m / 2).Add(o) == lib.maskBounds(m / 2);
    assert p in Points(square.rect) * Points(square.rect.Add(o));
    if lib.inside(m / 2, p) {
      assert p in MaskArea(square.rect, square, m / 2, lib);
    }
  }

  /** The captured flag after a Round processor has been applied to imgs in order. */
  function AntialiasAfter(antialias: bool, imgs: seq<Image>): bool
    decreases |imgs|
  {
    if imgs == [] then antialias
    else AntialiasAfter(NextAntialias(antialias, imgs[0]), imgs[1..])
  }

  /** The processor still antialiases exactly when it started so and has never seen a paletted image. */
  lemma {:induction false} AntialiasLatches(antialias: bool, imgs: seq<Image>)
    ensures AntialiasAfter(antialias, imgs) <==>
      antialias && forall i :: 0 <= i < |imgs| ==> !imgs[i].Paletted()
    decreases |imgs|
  {
    if imgs != [] {
      AntialiasLatches(NextAntialias(antialias, imgs[0]), imgs[1..]);
      assert forall i :: 1 <= i < |imgs| ==> imgs[i] == imgs[1..][i - 1];
    }
  }

  /** The closure Round(antialias) returns, with its captured flag as a field. */
  class RoundProcessor {
    var antialias: bool

    /** Round(antialias) */
    constructor (antialias: bool)
      ensures this.antialias == antialias
    {
      this.antialias := antialias;
    }

    /** One call of the closure: it overwrites the captured flag before using it. */
    method Apply(img: Image, lib: Lib) returns (out: Image)
      modifies this`antialias
      ensures antialias == NextAntialias(old(antialias), img)
      ensures out == Rounded(old(antialias), img, lib)
    {
      var paletted := img.Paletted();
      antialias := !paletted && antialias;

      var mind := img.rect.Dx();
      if img.rect.Dy() < mind {
        mind := img.rect.Dy();
      }
      var src := lib.cropTop(img, mind, mind);
      if antialias {
        mind := mind * Scale;
        src := lib.resize(src, mind, mind);
      }
      var dst := new Canvas(Origin(mind, mind));
      RoundTo(src, dst, mind / 2, lib);
      if !antialias {
        return dst.Snapshot();
      }
      mind := mind / Scale;
      out := lib.resize(dst.Snapshot(), mind, mind);
    }
  }
}
