/** Images as the recorder handles them: a rectangle of pixels. */
module Images {

  type Byte = x: int | 0 <= x < 256

  datatype Color = Color(r: Byte, g: Byte, b: Byte, a: Byte)

  /** What `RGBAAt` gives outside an image. */
  const CLEAR: Color := Color(0, 0, 0, 0)

  datatype Point = Point(x: int, y: int)

  /** Half-open in both directions. */
  datatype Rect = Rect(minX: int, minY: int, maxX: int, maxY: int) {
    predicate Has(p: Point) {
      minX <= p.x < maxX && minY <= p.y < maxY
    }

    /** A row-by-row scan of the rectangle has passed `p` once it stands at
        column `x` of row `y`. */
    predicate Passed(x: int, y: int, p: Point) {
      Has(p) && (p.y < y || (p.y == y && p.x < x))
    }
  }

  datatype Image = Image(bounds: Rect, pixels: map<Point, Color>) {
    function At(p: Point): Color {
      if bounds.Has(p) && p in pixels then pixels[p] else CLEAR
    }
  }

  /** An image and how long it stays up. */
  datatype Frame = Frame(image: Image, delay: int)

  type Palette = seq<Color>

  /** `Palette.Index`: some entry of the palette, the colour itself when the
      palette holds it. */
  ghost predicate Matches(index: (Palette, Color) -> nat) {
    forall pal, c :: pal != [] ==> MatchesAt(index, pal, c)
  }

  ghost predicate MatchesAt(index: (Palette, Color) -> nat, pal: Palette, c: Color)
    requires pal != []
  {
    index(pal, c) < |pal| && (c in pal ==> pal[index(pal, c)] == c)
  }
}
