# PBEasyPager layout engine in Dafny

PBEasyPager is a small Java library that builds PDF documents through PDFBox.
The model covers its layout engine:

- **Greedy word wrapping.** `Tools.splitStringForWidth` cuts a text at single
  spaces. It packs the tokens into lines, cutting before a token when the width
  of the open line plus the token's width exceeds the limit.
- **Column splitting.** `Tools.splitPage` gives the start positions of equally
  wide columns.
- **The pager cursor.** `AbstractPager` holds one pager's private pages, the
  writing position `(x, y)` and the font size and colour overrides. It moves to
  the next line or the next page, tests for vertical and horizontal overflow,
  and prints the page number.
- **The controller.** `PagerController` holds the margins, which are fixed at
  construction, the four font slots, and the ordered registry of pagers. It
  assembles the final document by laying the pagers' pages end to end.

Modules:

- `Wrappers`: `Option` and `Result`.
- `Backend`: the values the engine reads from PDFBox, kept abstract.
  - Fonts are opaque handles.
  - `Metrics` is a width function in 1000-unit glyph space, plus a font's
    bounding-box height.
  - Pages carry their media box. Colours are RGB.
- `JavaText`: the two runtime-library functions the engine uses.
  - `String.split(" ")`: trailing empty pieces are dropped, and a text without
    a space comes back whole.
  - `Integer.toString` for page counts.
- `Tools`: `SplitPage` and the wrapper, written as `SplitStringForWidth` over
  the loop `WrapTokens`.
  - The wrapper also returns a ghost record of which tokens had a line cut
    before them.
  - Its contract says the record obeys the greedy rule (`IsGreedy`), and that
    the lines are what that record produces (`Layout`).
  - `GreedyUnique` shows the rule leaves no freedom.
  - `WrapFacts` derives the promised shape of the output.
- `PagerController`: the controller as an immutable value.
  - Font loading is a parameter `load: string -> Result<Font, LoadError>`.
  - Each registered pager is a handle. `FinalizeDocument` is told each pager's
    pages through `pagesOf`.
  - `Run` applies any sequence of controller calls.
- `AbstractPager`: the cursor as an immutable value.
  - Every operation gets the controller, because the Java code reads margins
    and the regular font at call time. The blank page `nextPage` creates is a
    parameter.
  - `Trace` applies any sequence of pager calls.

All `float` arithmetic is modelled on exact reals.

Two things the code's Javadoc suggests are not what the code does; the model
follows the code:

- **Width limit.** The Javadoc of `splitStringForWidth` (Tools.java:52)
  promises "Strings fitting for given width". The code does not guarantee
  that, for two reasons:
  - It compares `w(line) + w(token)` with the limit, not `w(line + token)`, so
    with a measure that is not additive a line can be wider than the limit.
  - The comparison that admits a token measures the token alone, without the
    space appended after it (Tools.java:75-76). That space is measured only
    as part of the buffer when the next token is tried (Tools.java:67), so
    the space after the last token of a line is never counted against that
    line. Even an additive measure can therefore overflow: with `w(s) = |s|`,
    width 3 and the text `a b c`, the first line is `"a b "`, of width 4
    (`TrailingSpaceOverflow`).

  This is not claimed as a bug: a trailing space is usually invisible when
  drawn, so the comparison may well be the intended approximation. The model
  claims only the comparison the code makes (`IsGreedy`).
- **Empty text.** The empty text is one empty token. The code measures the
  empty buffer plus that token, so the result is one empty line exactly when
  `w("") + w("") <= width`; otherwise it is two empty lines. `WrapEmptyText`
  states both cases.

## Model

| member | source | states |
|---|---|---|
| Tools.SplitPage | src/net/swenf/Tools.java:43-49 | negative column count fails like the array allocation, else exactly `columns` start positions, the first at the left margin, each next one a column width (`pageWidth/columns`) further, the last column ending at `marginLeft + pageWidth` |
| Tools.WrapTokens | src/net/swenf/Tools.java:64-85 | the Java loop over a non-empty token array produces the layout of a cut record that obeys the greedy rule at every token; the returned lines are at least one, laid end to end they are the tokens joined by single spaces, and the last one ends with the last token |
| Tools.SplitStringForWidth | src/net/swenf/Tools.java:60-91 | `null` exactly when `split(" ")` yields no token (a non-empty all-space text); otherwise the greedy layout of the tokens, measured with the font at the given size |
| Tools.GreedyUnique | src/net/swenf/Tools.java:66-73 | the cut decisions are fully determined by the rule "cut before token i iff width(open line) + width(token i) > width", so the output is a function of text, width and metrics |
| Tools.WrapFacts | src/net/swenf/Tools.java:62-83 | the lines laid end to end are the tokens joined by single spaces; lines = cuts + 1 <= tokens + 1; the last line ends with the last token; every other line is empty or ends in a space; every line strictly between the first and the last is non-empty; the first line is empty with more lines following exactly when the first token alone overflows the empty line (the last line can be empty too, when the last token is) |
| Tools.WrapEmptyText | src/net/swenf/Tools.java:62-83 | an empty text is one empty line exactly when `w("") + w("") <= width`, and two empty lines otherwise |
| Tools.PaddedJoin | src/net/swenf/Tools.java:75-79 | appending a space to every token but the last and concatenating is joining with single spaces |
| Tools.TrailingSpaceOverflow | src/net/swenf/Tools.java:70-76 | the comparison admitting a token does not count the space appended after it, so the space after a line's last token is never counted against that line: with one unit per character and width 3, `a b c` wraps greedily as `"a b "` (4 wide) and `"c"`, so a line can exceed the width |
| Tools.ClosedLineAt | src/net/swenf/Tools.java:66-77 | one emitted line per cut, line k holding exactly the padded tokens from the previous cut (or the first token) up to the k-th cut |
| JavaText.SplitThenJoin | src/net/swenf/Tools.java:62 | rejoining the raw pieces of a split with single spaces gives the text back |
| JavaText.JoinThenSplit | src/net/swenf/Tools.java:62 | splitting space-free tokens joined by single spaces gives the tokens back |
| JavaText.JavaSplitEmptyIff | src/net/swenf/Tools.java:62-63 | `split(" ")` yields no token exactly for a non-empty text of spaces only, which is when the wrapper returns `null` |
| JavaText.JavaSplitDropsOnlyEmpty | src/net/swenf/Tools.java:62 | Java's split is a prefix of the raw pieces and drops only empty pieces |
| JavaText.JavaSplitNoSpace | src/net/swenf/Tools.java:62 | a text without a space is its own only token, the empty text giving one empty token |
| JavaText.JavaSplitLastNonEmpty | src/net/swenf/Tools.java:62 | the last token of a non-empty text is never empty |
| JavaText.DecimalRoundTrip | src/net/swenf/pager/AbstractPager.java:393 | the printed page number reads back as the page count and has no leading zero |
| PagerController.NewController | src/net/swenf/pager/PagerController.java:69-85 | the four margins are stored from the constructor's (left, right, top, bottom) arguments, the bundled fonts fill the slots, and the registry is empty |
| PagerController.AddPager | src/net/swenf/pager/PagerController.java:93-95 | the pager is appended at the end without any check (so it may already be present); earlier registrations, margins and fonts are unchanged |
| PagerController.FinalizeDocumentSpec | src/net/swenf/pager/PagerController.java:103-116 | fails with `IllegalState("There are no pagers to be written.")` exactly for an empty registry; otherwise the output has as many pages as the pagers together, and each pager's pages appear in their own order right after those of the pagers registered before it |
| PagerController.FinalizeAfterAddPager | src/net/swenf/pager/PagerController.java:93-116 | registering one more pager appends exactly its pages to the output |
| PagerController.SetSlotFont | src/net/swenf/pager/PagerController.java:151-186 | a single-slot setter replaces only its own slot with the loaded font and leaves the other three, the margins and the registry alone; a failed load changes nothing and reports the failure |
| PagerController.SetFonts | src/net/swenf/pager/PagerController.java:136-141 | regular from the first path, bold from the second, italic and bold-italic both from the fourth; the setters run in order, so a failure keeps the slots set before it |
| PagerController.SetFontsIgnoresItalicPath | src/net/swenf/pager/PagerController.java:136-141 | the italic path argument has no effect on the outcome |
| PagerController.SetFontsIntended | src/net/swenf/pager/PagerController.java:123-141 | each slot from its own path as the method's documentation describes, succeeding exactly when all four loads succeed |
| PagerController.SetFontsItalicQuirk | src/net/swenf/pager/PagerController.java:136-141 | when the italic and bold-italic files load as different fonts, `setFonts` leaves the wrong font in the italic slot where the intended version has the italic font |
| PagerController.MarginsNeverChange | src/net/swenf/pager/PagerController.java:53-56 | after any sequence of controller calls the margins are still those given at construction, and the registry has only grown at its end |
| AbstractPager.NewPager | src/net/swenf/pager/AbstractPager.java:45-53 | a new pager holds one page and an empty stream, x is the left margin, y is the page height less the top margin, and the size and colour are the defaults (12, black) |
| AbstractPager.NextPage | src/net/swenf/pager/AbstractPager.java:78-87 | the current page is finished with its stream content and the new blank page appended, y moves to the top margin of the new page, and x and the overrides stay |
| AbstractPager.NextLine | src/net/swenf/pager/AbstractPager.java:96-104 | x returns to the left margin and y drops by line height + gap − 3 (the gap is 0 without an argument); nothing else changes |
| AbstractPager.NextLineDefault | src/net/swenf/pager/AbstractPager.java:111-113 | `nextLine()` is `nextLine` with a zero gap |
| AbstractPager.FinishLine | src/net/swenf/pager/AbstractPager.java:121-123 | y drops by the given margin and nothing else changes |
| AbstractPager.LineHeightFixed | src/net/swenf/pager/AbstractPager.java:230-239 | the line height is the same for every pager state, whatever its size override: 0.0144 × the regular font's bounding-box height; the sized variant scales it linearly |
| AbstractPager.FontSizeScalesWidthOnly | src/net/swenf/pager/AbstractPager.java:230-253 | setting the size override leaves the line height unchanged but makes string widths scale with the new size (the standard size when cleared) |
| AbstractPager.StringWidth | src/net/swenf/pager/AbstractPager.java:251-253 | a string's width is its glyph-space width / 1000 times the pager's current font size, which is 0.012 times the glyph width while no size override is set |
| AbstractPager.PageWidth | src/net/swenf/pager/AbstractPager.java:265-267 | the width between the margins plus both margins is the media width |
| AbstractPager.PageCenterFrame | src/net/swenf/pager/AbstractPager.java:256-260 | the value is half the width between the margins measured from the left margin: in the absolute frame `printString` draws in, the midpoint between the margins is the left margin plus this value, and the value itself is that midpoint only when the left margin is zero |
| AbstractPager.FontSize | src/net/swenf/pager/AbstractPager.java:342-348 | the override when set, else 12 |
| AbstractPager.SetFontSize | src/net/swenf/pager/AbstractPager.java:354-356 | the effective size becomes the given one, or 12 when cleared; nothing else changes |
| AbstractPager.GetColor | src/net/swenf/pager/AbstractPager.java:361-367 | the override when set, else black |
| AbstractPager.SetColor | src/net/swenf/pager/AbstractPager.java:373-375 | the effective colour becomes the given one, or black when cleared; nothing else changes |
| AbstractPager.YExceededDefaultSpec | src/net/swenf/pager/AbstractPager.java:175-177 | `yExceeded()` holds exactly when y is below the bottom margin plus one line height, and then the test with any non-negative addition holds too |
| AbstractPager.YExceededMonotone | src/net/swenf/pager/AbstractPager.java:161-177 | overflow is `y < marginBottom + lineHeight + h`, and once it holds it holds for any lower y or larger addition |
| AbstractPager.YExceededPersists | src/net/swenf/pager/AbstractPager.java:96-167 | when a line moves the cursor down, neither `nextLine` nor `finishLine` with a non-negative margin ever clears an overflow |
| AbstractPager.YExceededAfterNextPage | src/net/swenf/pager/AbstractPager.java:78-167 | after `nextPage` there is room exactly when the new page is at least as tall as both margins, one line and the addition |
| AbstractPager.XExceededDefaultSpec | src/net/swenf/pager/AbstractPager.java:202-204 | `xExceeded(w)` implies the two-argument test for every non-negative extra margin, and at the start of a line holds exactly for strings at least as wide as the media width less twice each margin |
| AbstractPager.XExceededMonotone | src/net/swenf/pager/AbstractPager.java:187-204 | a wider string or a larger extra margin stays exceeded |
| AbstractPager.XExceededAtLineStart | src/net/swenf/pager/AbstractPager.java:187-193 | at the start of a line, the test passes only strings narrower than the media width less twice each margin |
| AbstractPager.XExceededCounterexample | src/net/swenf/pager/AbstractPager.java:187-193 | on a 600-wide page with 50-point margins, a 480-wide string at the left margin is reported as exceeding though it fits between the margins |
| AbstractPager.XExceededIntendedAtLineStart | src/net/swenf/pager/AbstractPager.java:187-193 | the proposed correction passes, at the start of a line, exactly the strings narrower than the width between the margins, and is monotone |
| AbstractPager.PrintString | src/net/swenf/pager/AbstractPager.java:144-150 | one text command is appended to the current page's stream with the given text, position, font and size, but in the pager's own colour (the `color` argument is not used by `setTextOptions`); the cursor does not move |
| AbstractPager.PrintPageNumberSpec | src/net/swenf/pager/AbstractPager.java:392-396 | the `x` argument is ignored; the command's text is non-empty, all decimal digits, without a leading zero, and reads back as the pager's own page count, its midpoint is the middle of the physical page, it sits one line height below the bottom margin, in the regular font at the current size and colour, and only the stream changes |
| AbstractPager.PagesOnlyGrow | src/net/swenf/pager/AbstractPager.java:78-87 | after any sequence of pager calls the finished pages are kept, and the page count has grown by one per `nextPage` |

## Left out

- PDF backend effects are not modelled. This covers content streams beyond the
  list of text commands, `stroke`, `beginText`/`endText`, saving the document,
  closing documents and streams (`closeStream`, `close`, `closePagers`), and
  `getDoc`/`getPages`. `finalizeDocument` calls `closeStream` twice per pager,
  and what the backend does with the second call is outside the model.
- Font loading is a function parameter. The constructor's failure when a
  bundled font resource cannot be read is not modelled; the bundled fonts are
  a parameter.
- `Tools.SplitStringForWidth`: the `IOException` path (a failed width
  measurement, which returns `null`) is not modelled, because the metrics are
  a total function.
- `float` rounding is not modelled. All arithmetic is exact.
- The default size of a `new PDPage()` is not modelled. The blank page is a
  parameter.
- `drawLine`, `getUnderLineDifference`, the abstract `printContent`, `equals`,
  the `Alignment` enum, the `Pager` interface, the `Fonts` class and
  `Tools.main` are not part of this model. They draw, or they are not part of
  the layout logic.
- The margin and font getters of `AbstractPager` are not modelled separately.
  They are plain field reads of the controller value.
- Calling `finalizeDocument` a second time is not modelled, because its effect
  depends on the closed backend objects.
- The four single-slot setters `SetFont`, `SetBoldFont`, `SetItalicFont` and
  `SetBoldItalicFont` are instances of `SetSlotFont`, whose contract covers
  them.

## Findings

| source | as written | input that shows it | evidently intended | confidence | as-written member | corrected member |
|---|---|---|---|---|---|---|
| src/net/swenf/pager/PagerController.java:139 | `setFonts` loads the italic slot from the bold-italic path; the italic path is never read | `setFonts(a, b, i, bi)` where `i` and `bi` are different font files: the italic slot holds the bold-italic font | the italic slot is loaded from the italic path, as the parameter's documentation says | high; not executed | PagerController.SetFontsItalicQuirk | PagerController.SetFontsIntended |
| src/net/swenf/pager/AbstractPager.java:188 | `xExceeded` adds the right margin to the absolute x and compares with the width between the margins, so both margins are counted twice | media width 600, margins 50, x = 50 (line start), string width 480: reported as exceeding although 50 + 480 <= 550 | proposed correction (the Javadoc only says "Check if width exceeds x", so the intended formula is a judgement): the string plus the extra margin reaches the right margin, `x + sw + m >= mediaWidth - marginRight` | low; not executed | AbstractPager.XExceededCounterexample | AbstractPager.XExceededIntendedAtLineStart |
