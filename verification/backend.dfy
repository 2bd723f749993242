/** The external collaborators of the layout engine, reduced to the values the
    engine reads from them: font handles with their metrics, pages with their
    media boxes, and colours. */
module Backend {

  /** An opaque handle to a loaded font. */
  datatype Font = Font(id: nat)

  /** What the font library reports about a font. Both quantities are in the
      1000-units-per-em glyph space. */
  datatype Metrics = Metrics(
    glyphWidth: (Font, string) -> real,
    boxHeight: Font -> real)

  /** The physical size of a page. */
  datatype MediaBox = MediaBox(width: real, height: real)

  /** A blank page handed out by the document backend. */
  datatype Page = Page(id: nat, media: MediaBox)

  /** An RGB colour. */
  datatype Color = Color(red: int, green: int, blue: int)

  const Black: Color := Color(0, 0, 0)

  /** Why a font file could not be turned into a font handle. */
  datatype LoadError = FileNotFound(path: string) | Unreadable(path: string)

  /** The width of `s` set in `font` at `size`: the glyph-space width scaled by
      1/1000 and by the size, as every width computation of the engine does. */
  function TextWidth(m: Metrics, font: Font, size: real): (w: string -> real)
    ensures forall s :: w(s) == m.glyphWidth(font, s) / 1000.0 * size
  {
    s => m.glyphWidth(font, s) / 1000.0 * size
  }
}
