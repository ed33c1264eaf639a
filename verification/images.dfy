/** Colours, images and the fresh NRGBA buffer of Go's image and image/color packages. */
module Images {
  import opened Geometry

  type uint8 = x: int | 0 <= x < 0x100
  type uint16 = x: int | 0 <= x < 0x1_0000

  /**
   * A colour value. Go compares colours held in a color.Color by dynamic type and
   * then by value, so colours of different models are never equal: an Rgba with
   * alpha 0 is not color.Transparent.
   */
  datatype Color =
    | Rgba(r: uint8, g: uint8, b: uint8, a: uint8)      // color.RGBA, premultiplied
    | Nrgba(nr: uint8, ng: uint8, nb: uint8, na: uint8) // color.NRGBA
    | Alpha16(a16: uint16)                              // color.Alpha16
  {
    /** The colour lets everything beneath it show through. */
    predicate Clear() {
      match this
      case Rgba(_, _, _, a) => a == 0
      case Nrgba(_, _, _, a) => a == 0
      case Alpha16(a) => a == 0
    }
  }

  /** color.Transparent */
  const Transparent: Color := Alpha16(0)

  /** The pixel of a freshly allocated *image.NRGBA. */
  const Blank: Color := Nrgba(0, 0, 0, 0)

  /** The concrete type behind an image.Image. */
  datatype Model = NrgbaModel | PalettedModel(palette: seq<Color>) | OtherModel

  /** An image: its concrete type, its bounds and its pixels keyed by point. */
  datatype Image = Image(model: Model, rect: Bounds, pix: map<Point, Color>) {
    /** The type assertion img.(*image.Paletted) succeeds. */
    predicate Paletted() { model.PalettedModel? }
    function At(p: Point): Color { PixelAt(pix, p) }
  }

  function PixelAt(pix: map<Point, Color>, p: Point): Color {
    if p in pix then pix[p] else Blank
  }

  /** Every point of r holding the colour c. */
  function Fill(r: Rect, c: Color): (m: map<Point, Color>)
    ensures m.Keys == Points(r)
    ensures forall p :: p in m ==> m[p] == c
  {
    map p | p in Points(r) :: c
  }

  /** An *image.NRGBA whose pixels are written in place. */
  class Canvas {
    const rect: Bounds
    var pix: map<Point, Color>

    /** image.NewNRGBA(r) */
    constructor (r: Bounds)
      ensures rect == r && pix == Fill(r, Blank)
    {
      rect := r;
      pix := Fill(r, Blank);
    }

    function Snapshot(): (img: Image)
      reads this
      ensures img.model == NrgbaModel && img.rect == rect && img.pix == pix
    {
      Image(NrgbaModel, rect, pix)
    }
  }
}
