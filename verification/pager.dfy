/** The writing cursor of one pager (the `AbstractPager` class): its own
    sequence of pages, the position where the next text goes, optional font
    size and colour overrides, and the text commands sent to the current
    page's content stream. Every quantity it reads from the controller —
    margins and the regular font — is read at the time of the call, so the
    controller is passed to each operation. */
module AbstractPager {
  import opened Wrappers
  import opened Backend
  import opened JavaText
  import opened PagerController

  /** One text drawing call: text, position, font, size and colour. */
  datatype TextCommand = TextCommand(text: string, x: real, y: real, font: Font, size: int, color: Color)

  /** A page whose content stream has been closed, with what was drawn on it. */
  datatype FinishedPage = FinishedPage(page: Page, content: seq<TextCommand>)

  /** The pager's state. The current page always exists, and its open
      content stream holds `stream`. */
  datatype Pager = Pager(
    x: real,
    y: real,
    done: seq<FinishedPage>,
    current: Page,
    stream: seq<TextCommand>,
    fontSize: Option<int>,
    color: Option<Color>)
  {
    /** The pages of this pager's own document, in order. */
    function Pages(): (r: seq<Page>)
      ensures |r| == |done| + 1 && r[|done|] == current
      ensures forall k :: 0 <= k < |done| ==> r[k] == done[k].page
    {
      seq(|done|, k requires 0 <= k < |done| => done[k].page) + [current]
    }

    /** The number of pages in this pager's document. */
    function PageCount(): nat {
      |done| + 1
    }
  }

  // ---- Page geometry ----

  function PageHeight(p: Pager): real {
    p.current.media.height
  }

  function AbsoluteWidth(p: Pager): real {
    p.current.media.width
  }

  /** The width between the left and the right margin. */
  function PageWidth(p: Pager, c: Controller): (r: real)
    ensures r + c.margins.left + c.margins.right == AbsoluteWidth(p)
  {
    p.current.media.width - c.margins.left - c.margins.right
  }

  /** Half the width between the margins (not shifted by the left margin). */
  function PageCenter(p: Pager, c: Controller): (r: real)
    ensures 2.0 * r == PageWidth(p, c)
  {
    PageWidth(p, c) / 2.0
  }

  /** Where the centre lies in the absolute frame that `printString` draws
      in: shifted by the left margin it is the midpoint between the margins,
      and unshifted it is that midpoint only when the left margin is zero. */
  lemma PageCenterFrame(p: Pager, c: Controller)
    ensures c.margins.left + PageCenter(p, c) == (c.margins.left + AbsoluteWidth(p) - c.margins.right) / 2.0
    ensures PageCenter(p, c) == (c.margins.left + AbsoluteWidth(p) - c.margins.right) / 2.0
        <==> c.margins.left == 0.0
  {
  }

  /** The height of one line: the regular font's bounding box scaled to the
      standard size, times the line-height factor. The pager's font size
      override plays no part. */
  function LineHeight(p: Pager, c: Controller, m: Metrics): real {
    LineHeightFor(c, m, StandardFontSize)
  }

  /** The line height for a given font size. */
  function LineHeightFor(c: Controller, m: Metrics, size: int): real {
    m.boxHeight(c.fonts.regular) / 1000.0 * (size as real) * LineHeightFactor
  }

  /** The line height is the same for every pager on the controller,
      whatever its size override, position or pages: 0.0144 times the regular
      font's bounding-box height (12 points times 1.2 per 1000 glyph units),
      and it scales linearly with the size asked for. */
  lemma LineHeightFixed(p: Pager, q: Pager, c: Controller, m: Metrics, size: int)
    ensures LineHeight(p, c, m) == LineHeight(q, c, m)
    ensures LineHeight(p, c, m) == m.boxHeight(c.fonts.regular) * 0.0144
    ensures 12.0 * LineHeightFor(c, m, size) == (size as real) * LineHeight(p, c, m)
  {
  }

  // ---- Font size and colour ----

  /** The override when one is set, else the standard size 12. */
  function FontSize(p: Pager): (r: int)
    ensures p.fontSize.Some? ==> r == p.fontSize.value
    ensures p.fontSize.None? ==> r == StandardFontSize
  {
    p.fontSize.GetOr(StandardFontSize)
  }

  /** Sets the size override; `None` restores the standard size. */
  function SetFontSize(p: Pager, size: Option<int>): (r: Pager)
    ensures FontSize(r) == size.GetOr(StandardFontSize)
    ensures r.(fontSize := p.fontSize) == p
  {
    p.(fontSize := size)
  }

  /** The override when one is set, else black. */
  function GetColor(p: Pager): (r: Color)
    ensures p.color.Some? ==> r == p.color.value
    ensures p.color.None? ==> r == StandardTextColor
  {
    p.color.GetOr(StandardTextColor)
  }

  /** Sets the colour override; `None` restores black. */
  function SetColor(p: Pager, color: Option<Color>): (r: Pager)
    ensures GetColor(r) == color.GetOr(StandardTextColor)
    ensures r.(color := p.color) == p
  {
    p.(color := color)
  }

  /** The width of `text` in `font` at the pager's current font size. */
  function StringWidth(p: Pager, m: Metrics, text: string, font: Font): (r: real)
    ensures r == m.glyphWidth(font, text) / 1000.0 * (FontSize(p) as real)
    ensures p.fontSize.None? ==> r == m.glyphWidth(font, text) * 0.012
  {
    TextWidth(m, font, FontSize(p) as real)(text)
  }

  /** Changing the font size override rescales string widths and leaves the
      line height alone. */
  lemma FontSizeScalesWidthOnly(p: Pager, c: Controller, m: Metrics, size: Option<int>, text: string, font: Font)
    ensures LineHeight(SetFontSize(p, size), c, m) == LineHeight(p, c, m)
    ensures StringWidth(SetFontSize(p, size), m, text, font)
         == m.glyphWidth(font, text) / 1000.0 * (size.GetOr(StandardFontSize) as real)
    ensures size == Some(StandardFontSize) ==>
      StringWidth(SetFontSize(p, size), m, text, font) == StringWidth(SetFontSize(p, None), m, text, font)
  {
  }

  // ---- Cursor transitions ----

  /** A new pager: one page (`first`, the page the backend creates), an empty
      stream, the cursor at the top-left corner inside the margins, and no
      overrides. */
  function NewPager(c: Controller, first: Page): (p: Pager)
    ensures p.Pages() == [first] && p.stream == []
    ensures p.x == c.margins.left && p.y + c.margins.top == PageHeight(p)
    ensures FontSize(p) == StandardFontSize && GetColor(p) == StandardTextColor
  {
    Pager(c.margins.left, first.media.height - c.margins.top, [], first, [], None, None)
  }

  /** Closes the current page's stream, appends `blank` as the new current
      page with an empty stream, and moves y to the top margin of the new
      page. x is left where it was. */
  function NextPage(p: Pager, c: Controller, blank: Page): (r: Pager)
    ensures r.PageCount() == p.PageCount() + 1
    ensures r.Pages() == p.Pages() + [blank]
    ensures r.done == p.done + [FinishedPage(p.current, p.stream)] && r.stream == []
    ensures r.y + c.margins.top == PageHeight(r)
    ensures r.x == p.x && r.fontSize == p.fontSize && r.color == p.color
  {
    var r := p.(done := p.done + [FinishedPage(p.current, p.stream)], current := blank, stream := [],
                y := blank.media.height - c.margins.top);
    assert r.Pages() == p.Pages() + [blank];
    r
  }

  /** Moves to the start of the next line: x back to the left margin, y down
      by one line height plus the extra gap, less the underline correction.
      Without a gap, the gap is zero. */
  function NextLine(p: Pager, c: Controller, m: Metrics, marginTop: Option<real>): (r: Pager)
    ensures r.x == c.margins.left
    ensures p.y - r.y == LineHeight(p, c, m) + marginTop.GetOr(0.0) - UnderLineCorrection
    ensures r.(x := p.x, y := p.y) == p
  {
    match marginTop
    case Some(mt) => p.(x := c.margins.left, y := p.y - (LineHeight(p, c, m) + mt - UnderLineCorrection))
    case None => p.(x := c.margins.left, y := p.y - (LineHeight(p, c, m) - UnderLineCorrection))
  }

  /** `nextLine()` without an argument. */
  function NextLineDefault(p: Pager, c: Controller, m: Metrics): (r: Pager)
    ensures r == NextLine(p, c, m, Some(0.0))
  {
    NextLine(p, c, m, None)
  }

  /** Moves y further down by `marginBottom`. */
  function FinishLine(p: Pager, marginBottom: real): (r: Pager)
    ensures p.y - r.y == marginBottom
    ensures r.(y := p.y) == p
  {
    p.(y := p.y - marginBottom)
  }

  // ---- Overflow tests ----

  /** No room for another line (plus `heightAddition`) above the bottom
      margin. */
  predicate YExceeded(p: Pager, c: Controller, m: Metrics, heightAddition: real) {
    p.y - c.margins.bottom - LineHeight(p, c, m) - heightAddition < 0.0
  }

  /** `yExceeded()` without an argument. */
  predicate YExceededDefault(p: Pager, c: Controller, m: Metrics) {
    YExceeded(p, c, m, 0.0)
  }

  /** `yExceeded()` is the one-argument test with no addition: there is no
      room for one more line above the bottom margin, and then there is none
      for any non-negative addition either. */
  lemma YExceededDefaultSpec(p: Pager, c: Controller, m: Metrics, h: real)
    requires h >= 0.0
    ensures YExceededDefault(p, c, m) <==> p.y < c.margins.bottom + LineHeight(p, c, m)
    ensures YExceededDefault(p, c, m) ==> YExceeded(p, c, m, h)
  {
  }

  /** Once there is no room, there is none for a lower cursor or a larger
      addition either; the test is against a single threshold on y. */
  lemma YExceededMonotone(p: Pager, q: Pager, c: Controller, m: Metrics, h: real, h': real)
    requires q.y <= p.y && h <= h'
    ensures YExceeded(p, c, m, h) ==> YExceeded(q, c, m, h')
    ensures YExceeded(p, c, m, h) <==> p.y < c.margins.bottom + LineHeight(p, c, m) + h
  {
  }

  /** Moving down a line or finishing a line with a non-negative gap never
      makes room again, provided a line moves the cursor down. */
  lemma YExceededPersists(p: Pager, c: Controller, m: Metrics, h: real, mt: Option<real>, mb: real)
    requires LineHeight(p, c, m) + mt.GetOr(0.0) >= UnderLineCorrection && mb >= 0.0
    requires YExceeded(p, c, m, h)
    ensures YExceeded(NextLine(p, c, m, mt), c, m, h)
    ensures YExceeded(FinishLine(p, mb), c, m, h)
  {
    YExceededMonotone(p, NextLine(p, c, m, mt), c, m, h, h);
    YExceededMonotone(p, FinishLine(p, mb), c, m, h, h);
  }

  /** A blank page has room again exactly when the page is tall enough for
      the margins, one line and the addition. */
  lemma YExceededAfterNextPage(p: Pager, c: Controller, m: Metrics, blank: Page, h: real)
    ensures !YExceeded(NextPage(p, c, blank), c, m, h)
        <==> blank.media.height >= c.margins.top + c.margins.bottom + LineHeight(p, c, m) + h
  {
  }

  /** A string of width `stringWidth` plus `marginRight` would reach the
      right edge, as the code computes it: the absolute x plus the right
      margin is compared with the width between the margins. */
  predicate XExceeded(p: Pager, c: Controller, stringWidth: real, marginRight: real) {
    p.x + stringWidth + c.margins.right + marginRight >= PageWidth(p, c)
  }

  /** `xExceeded(w)` without an extra margin. */
  predicate XExceededDefault(p: Pager, c: Controller, stringWidth: real) {
    XExceeded(p, c, stringWidth, 0.0)
  }

  /** `xExceeded(w)` is the two-argument test with no extra margin: it
      implies the test for every non-negative extra margin, and at the start
      of a line it holds exactly for strings at least as wide as the media
      width less twice each margin. */
  lemma XExceededDefaultSpec(p: Pager, c: Controller, m: Metrics, mt: Option<real>, sw: real, mr: real)
    requires mr >= 0.0
    ensures XExceededDefault(p, c, sw) ==> XExceeded(p, c, sw, mr)
    ensures XExceededDefault(NextLine(p, c, m, mt), c, sw)
        <==> sw >= AbsoluteWidth(p) - 2.0 * c.margins.left - 2.0 * c.margins.right
  {
  }

  /** A wider string or a larger extra margin stays exceeded. */
  lemma XExceededMonotone(p: Pager, c: Controller, sw: real, sw': real, mr: real, mr': real)
    requires sw <= sw' && mr <= mr'
    ensures XExceeded(p, c, sw, mr) ==> XExceeded(p, c, sw', mr')
  {
  }

  /** At the start of a line the test leaves room for strings narrower than
      the media width less twice each margin: both margins are counted twice. */
  lemma XExceededAtLineStart(p: Pager, c: Controller, m: Metrics, mt: Option<real>, sw: real, mr: real)
    ensures XExceeded(NextLine(p, c, m, mt), c, sw, mr)
        <==> sw + mr >= AbsoluteWidth(p) - 2.0 * c.margins.left - 2.0 * c.margins.right
  {
  }

  /** A proposed correction of the test, not the code's behaviour: the
      string, placed at the absolute x and followed by the extra margin,
      reaches the right margin of the physical page. */
  predicate XExceededIntended(p: Pager, c: Controller, stringWidth: real, marginRight: real) {
    p.x + stringWidth + marginRight >= AbsoluteWidth(p) - c.margins.right
  }

  /** The intended test at the start of a line leaves exactly the width
      between the margins, and is monotone too. */
  lemma XExceededIntendedAtLineStart(p: Pager, c: Controller, m: Metrics, mt: Option<real>, sw: real, mr: real,
                                     sw': real, mr': real)
    requires sw <= sw' && mr <= mr'
    ensures XExceededIntended(NextLine(p, c, m, mt), c, sw, mr) <==> sw + mr >= PageWidth(p, c)
    ensures XExceededIntended(p, c, sw, mr) ==> XExceededIntended(p, c, sw', mr')
  {
  }

  /** A US-letter-like page 600 wide with 50-point margins, cursor at the
      left margin: a 480-wide string fits between the margins, but the code
      reports it as exceeding. */
  lemma XExceededCounterexample(p: Pager, c: Controller)
    requires p.current.media.width == 600.0 && p.x == 50.0
    requires c.margins.left == 50.0 && c.margins.right == 50.0
    ensures XExceeded(p, c, 480.0, 0.0)
    ensures !XExceededIntended(p, c, 480.0, 0.0)
  {
  }

  // ---- Drawing ----

  /** Adds a text command to the current page's stream. The cursor does not
      move, and the colour drawn is the pager's colour: the `color` argument
      is not used. */
  function PrintString(p: Pager, text: string, x: real, y: real, font: Font, fontSize: int, color: Color): (r: Pager)
    ensures r.stream == p.stream + [TextCommand(text, x, y, font, fontSize, GetColor(p))]
    ensures r.(stream := p.stream) == p
  {
    p.(stream := p.stream + [TextCommand(text, x, y, font, fontSize, GetColor(p))])
  }

  /** Prints the number of pages in the pager's own document, centred on the
      physical page and one line height below the bottom margin, in the
      regular font at the current size and colour. The `x` argument is not
      used. */
  function PrintPageNumber(p: Pager, c: Controller, m: Metrics, x: real): (r: Pager)
  {
    var nr := DecimalString(p.PageCount());
    var nrWidth := StringWidth(p, m, nr, c.fonts.regular);
    PrintString(p, nr, AbsoluteWidth(p) / 2.0 - nrWidth / 2.0, c.margins.bottom - LineHeight(p, c, m),
                c.fonts.regular, FontSize(p), GetColor(p))
  }

  /** The page number command: its text is the page count in canonical decimal
      (digits only, no leading zero) and reads back as that count, its
      horizontal midpoint is the middle of the physical page, it sits one line
      height below the bottom margin, and nothing but the stream changes,
      whatever `x` is. */
  lemma PrintPageNumberSpec(p: Pager, c: Controller, m: Metrics, x: real, x': real)
    ensures PrintPageNumber(p, c, m, x) == PrintPageNumber(p, c, m, x')
    ensures |PrintPageNumber(p, c, m, x).stream| == |p.stream| + 1
    ensures PrintPageNumber(p, c, m, x).stream[..|p.stream|] == p.stream
    ensures PrintPageNumber(p, c, m, x).(stream := p.stream) == p
    ensures DecimalValue(PrintPageNumber(p, c, m, x).stream[|p.stream|].text) == p.PageCount()
    ensures var t := PrintPageNumber(p, c, m, x).stream[|p.stream|].text;
      && |t| >= 1
      && (forall i :: 0 <= i < |t| ==> '0' <= t[i] <= '9')
      && t[0] != '0'
    ensures PrintPageNumber(p, c, m, x).stream[|p.stream|].x
          + StringWidth(p, m, PrintPageNumber(p, c, m, x).stream[|p.stream|].text, c.fonts.regular) / 2.0
         == AbsoluteWidth(p) / 2.0
    ensures PrintPageNumber(p, c, m, x).stream[|p.stream|].y + LineHeight(p, c, m) == c.margins.bottom
    ensures PrintPageNumber(p, c, m, x).stream[|p.stream|].font == c.fonts.regular
    ensures PrintPageNumber(p, c, m, x).stream[|p.stream|].size == FontSize(p)
    ensures PrintPageNumber(p, c, m, x).stream[|p.stream|].color == GetColor(p)
  {
    DecimalRoundTrip(p.PageCount());
  }

  // ---- Everything a pager can be asked to do ----

  /** One call on a pager. `NextPageCall` carries the page the backend
      creates. */
  datatype PagerCall =
    | NextPageCall(blank: Page)
    | NextLineCall(marginTop: Option<real>)
    | FinishLineCall(marginBottom: real)
    | SetFontSizeCall(size: Option<int>)
    | SetColorCall(override: Option<Color>)
    | PrintStringCall(text: string, x: real, y: real, font: Font, fontSize: int, color: Color)
    | PrintPageNumberCall(x: real)

  function Step(p: Pager, c: Controller, m: Metrics, call: PagerCall): Pager {
    match call
    case NextPageCall(blank) => NextPage(p, c, blank)
    case NextLineCall(mt) => NextLine(p, c, m, mt)
    case FinishLineCall(mb) => FinishLine(p, mb)
    case SetFontSizeCall(size) => SetFontSize(p, size)
    case SetColorCall(o) => SetColor(p, o)
    case PrintStringCall(text, x, y, font, size, color) => PrintString(p, text, x, y, font, size, color)
    case PrintPageNumberCall(x) => PrintPageNumber(p, c, m, x)
  }

  function Trace(p: Pager, c: Controller, m: Metrics, calls: seq<PagerCall>): Pager
    decreases |calls|
  {
    if |calls| == 0 then p else Trace(Step(p, c, m, calls[0]), c, m, calls[1..])
  }

  /** How many `NextPageCall`s a call sequence holds. */
  function NewPages(calls: seq<PagerCall>): nat {
    if |calls| == 0 then 0 else (if calls[0].NextPageCall? then 1 else 0) + NewPages(calls[1..])
  }

  /** Pages are only ever added: whatever the calls, the finished pages stay,
      and the document grows by one page per `nextPage`. */
  lemma {:induction false} PagesOnlyGrow(p: Pager, c: Controller, m: Metrics, calls: seq<PagerCall>)
    ensures Trace(p, c, m, calls).PageCount() == p.PageCount() + NewPages(calls)
    ensures |p.done| <= |Trace(p, c, m, calls).done|
    ensures Trace(p, c, m, calls).done[..|p.done|] == p.done
    decreases |calls|
  {
    if |calls| > 0 {
      var q := Step(p, c, m, calls[0]);
      assert q.done[..|p.done|] == p.done;
      PagesOnlyGrow(q, c, m, calls[1..]);
      var t := Trace(p, c, m, calls);
      assert t.done[..|p.done|] == t.done[..|q.done|][..|p.done|];
    }
  }
}
