/** The shared configuration and final assembly of a document (the
    `PagerController` class): fixed margins, four font slots, the ordered
    registry of pagers, and the step that lays every pager's pages end to end
    into the output document. */
module PagerController {
  import opened Wrappers
  import opened Backend

  // ---- Layout constants shared by every pager ----

  const StandardFontSize: int := 12
  const LineHeightFactor: real := 1.2
  const UnderLineCorrection: real := 3.0
  const StandardTextColor: Color := Black

  /** The four page margins. */
  datatype Margins = Margins(top: real, left: real, right: real, bottom: real)

  /** The four font slots. */
  datatype FontSlot = Regular | Bold | Italic | BoldItalic

  datatype FontSet = FontSet(regular: Font, bold: Font, italic: Font, boldItalic: Font) {

    function Get(slot: FontSlot): Font {
      match slot
      case Regular => regular
      case Bold => bold
      case Italic => italic
      case BoldItalic => boldItalic
    }

    /** This font set with `slot` holding `f`. */
    function With(slot: FontSlot, f: Font): (r: FontSet)
      ensures r.Get(slot) == f
      ensures forall s: FontSlot :: s != slot ==> r.Get(s) == Get(s)
    {
      match slot
      case Regular => this.(regular := f)
      case Bold => this.(bold := f)
      case Italic => this.(italic := f)
      case BoldItalic => this.(boldItalic := f)
    }
  }

  /** The identity of a pager object held in the registry. */
  datatype PagerRef = PagerRef(id: nat)

  /** The controller's state. The margins are fixed at construction; no
      operation below produces a controller with other margins. */
  datatype Controller = Controller(margins: Margins, fonts: FontSet, pagers: seq<PagerRef>)

  /** Java's `IllegalStateException`. */
  datatype StateError = IllegalState(message: string)

  /** Builds a controller from the margins, given in the constructor's
      argument order (left, right, top, bottom), and the bundled default
      fonts; the registry starts empty. */
  function NewController(marginLeft: real, marginRight: real, marginTop: real, marginBottom: real,
                         bundled: FontSet): (c: Controller)
    ensures c.margins.left == marginLeft && c.margins.right == marginRight
    ensures c.margins.top == marginTop && c.margins.bottom == marginBottom
    ensures c.fonts == bundled && c.pagers == []
  {
    Controller(Margins(marginTop, marginLeft, marginRight, marginBottom), bundled, [])
  }

  /** Registers a pager at the end of the registry. There is no check:
      a pager already registered is registered again. */
  function AddPager(c: Controller, pager: PagerRef): (r: Controller)
    ensures |r.pagers| == |c.pagers| + 1
    ensures r.pagers[..|c.pagers|] == c.pagers && r.pagers[|c.pagers|] == pager
    ensures r.margins == c.margins && r.fonts == c.fonts
  {
    c.(pagers := c.pagers + [pager])
  }

  // ---- Final assembly ----

  /** The pages of the given pagers laid end to end, in registry order. */
  function Flatten(rs: seq<PagerRef>, pagesOf: PagerRef -> seq<Page>): seq<Page> {
    if |rs| == 0 then [] else pagesOf(rs[0]) + Flatten(rs[1..], pagesOf)
  }

  /** How many pages the given pagers hold together. */
  function TotalPages(rs: seq<PagerRef>, pagesOf: PagerRef -> seq<Page>): nat {
    if |rs| == 0 then 0 else |pagesOf(rs[0])| + TotalPages(rs[1..], pagesOf)
  }

  lemma {:induction false} FlattenLength(rs: seq<PagerRef>, pagesOf: PagerRef -> seq<Page>)
    ensures |Flatten(rs, pagesOf)| == TotalPages(rs, pagesOf)
    decreases |rs|
  {
    if |rs| > 0 {
      FlattenLength(rs[1..], pagesOf);
    }
  }

  /** Laying out two registries one after the other is laying out their
      concatenation. */
  lemma {:induction false} FlattenAppend(a: seq<PagerRef>, b: seq<PagerRef>, pagesOf: PagerRef -> seq<Page>)
    ensures Flatten(a + b, pagesOf) == Flatten(a, pagesOf) + Flatten(b, pagesOf)
    decreases |a|
  {
    if |a| == 0 {
      assert a + b == b;
    } else {
      assert (a + b)[1..] == a[1..] + b;
      FlattenAppend(a[1..], b, pagesOf);
    }
  }

  /** Pager k's pages sit, in their own order, right after the pages of the
      pagers registered before it. */
  lemma FlattenPlacement(rs: seq<PagerRef>, pagesOf: PagerRef -> seq<Page>, k: nat)
    requires k < |rs|
    ensures TotalPages(rs[..k], pagesOf) + |pagesOf(rs[k])| <= |Flatten(rs, pagesOf)|
    ensures Flatten(rs, pagesOf)[TotalPages(rs[..k], pagesOf)..TotalPages(rs[..k], pagesOf) + |pagesOf(rs[k])|]
         == pagesOf(rs[k])
  {
    var before, after := Flatten(rs[..k], pagesOf), Flatten(rs[k + 1..], pagesOf);
    assert rs == rs[..k] + ([rs[k]] + rs[k + 1..]);
    FlattenAppend(rs[..k], [rs[k]] + rs[k + 1..], pagesOf);
    assert Flatten([rs[k]] + rs[k + 1..], pagesOf) == pagesOf(rs[k]) + after by {
      assert ([rs[k]] + rs[k + 1..])[1..] == rs[k + 1..];
    }
    FlattenLength(rs[..k], pagesOf);
    var mine := pagesOf(rs[k]);
    assert Flatten(rs, pagesOf) == before + (mine + after);
    assert (before + (mine + after))[|before|..|before| + |mine|] == mine;
  }

  /** Registering one more pager appends its pages to the output. */
  lemma {:induction false} FlattenSnoc(rs: seq<PagerRef>, pagesOf: PagerRef -> seq<Page>, r: PagerRef)
    ensures Flatten(rs + [r], pagesOf) == Flatten(rs, pagesOf) + pagesOf(r)
    decreases |rs|
  {
    if |rs| == 0 {
      assert Flatten([r], pagesOf) == pagesOf(r) + Flatten([], pagesOf);
    } else {
      assert (rs + [r])[1..] == rs[1..] + [r];
      FlattenSnoc(rs[1..], pagesOf, r);
    }
  }

  /** Writes the document: fails with `IllegalState` when no pager is
      registered, before anything is moved; otherwise the output pages are
      every registered pager's pages, pager by pager in registry order.
      `pagesOf` gives the page sequence each pager object holds when the
      document is finalized. */
  function FinalizeDocument(c: Controller, pagesOf: PagerRef -> seq<Page>): (r: Result<seq<Page>, StateError>)
  {
    if |c.pagers| == 0 then Failure(IllegalState("There are no pagers to be written."))
    else Success(Flatten(c.pagers, pagesOf))
  }

  /** What finalizing yields: an error exactly for an empty registry, and
      otherwise as many pages as the pagers hold together, each pager's pages
      in their own order at the position its registration gives it. */
  lemma FinalizeDocumentSpec(c: Controller, pagesOf: PagerRef -> seq<Page>)
    ensures FinalizeDocument(c, pagesOf).Failure? <==> c.pagers == []
    ensures FinalizeDocument(c, pagesOf).Success? ==>
      |FinalizeDocument(c, pagesOf).value| == TotalPages(c.pagers, pagesOf)
    ensures FinalizeDocument(c, pagesOf).Success? ==>
      forall k :: 0 <= k < |c.pagers| ==>
        TotalPages(c.pagers[..k], pagesOf) + |pagesOf(c.pagers[k])| <= |FinalizeDocument(c, pagesOf).value|
        && FinalizeDocument(c, pagesOf).value[TotalPages(c.pagers[..k], pagesOf)..TotalPages(c.pagers[..k], pagesOf) + |pagesOf(c.pagers[k])|]
           == pagesOf(c.pagers[k])
  {
    FlattenLength(c.pagers, pagesOf);
    forall k | 0 <= k < |c.pagers|
      ensures TotalPages(c.pagers[..k], pagesOf) + |pagesOf(c.pagers[k])| <= |Flatten(c.pagers, pagesOf)|
      ensures Flatten(c.pagers, pagesOf)[TotalPages(c.pagers[..k], pagesOf)..TotalPages(c.pagers[..k], pagesOf) + |pagesOf(c.pagers[k])|]
           == pagesOf(c.pagers[k])
    {
      FlattenPlacement(c.pagers, pagesOf, k);
    }
  }

  /** Adding a pager to a non-empty registry appends exactly that pager's
      pages to the finalized output. */
  lemma FinalizeAfterAddPager(c: Controller, pagesOf: PagerRef -> seq<Page>, pager: PagerRef)
    requires c.pagers != []
    ensures FinalizeDocument(AddPager(c, pager), pagesOf).Success?
    ensures FinalizeDocument(AddPager(c, pager), pagesOf).value
         == FinalizeDocument(c, pagesOf).value + pagesOf(pager)
  {
    FlattenSnoc(c.pagers, pagesOf, pager);
  }

  // ---- Font slots ----

  /** Loads the font at `path` into `slot`. A failed load leaves the
      controller as it was and reports the failure. */
  function SetSlotFont(c: Controller, slot: FontSlot, path: string,
                       load: string -> Result<Font, LoadError>): (r: Result<Controller, LoadError>)
    ensures r.Success? <==> load(path).Success?
    ensures r.Failure? ==> r.error == load(path).error
    ensures r.Success? ==> r.value.fonts.Get(slot) == load(path).value
    ensures r.Success? ==> forall s: FontSlot :: s != slot ==> r.value.fonts.Get(s) == c.fonts.Get(s)
    ensures r.Success? ==> r.value.margins == c.margins && r.value.pagers == c.pagers
  {
    match load(path)
    case Success(f) => Success(c.(fonts := c.fonts.With(slot, f)))
    case Failure(e) => Failure(e)
  }

  function SetFont(c: Controller, path: string, load: string -> Result<Font, LoadError>): Result<Controller, LoadError> {
    SetSlotFont(c, Regular, path, load)
  }

  function SetBoldFont(c: Controller, path: string, load: string -> Result<Font, LoadError>): Result<Controller, LoadError> {
    SetSlotFont(c, Bold, path, load)
  }

  function SetItalicFont(c: Controller, path: string, load: string -> Result<Font, LoadError>): Result<Controller, LoadError> {
    SetSlotFont(c, Italic, path, load)
  }

  function SetBoldItalicFont(c: Controller, path: string, load: string -> Result<Font, LoadError>): Result<Controller, LoadError> {
    SetSlotFont(c, BoldItalic, path, load)
  }

  /** A sequence of setter calls that may stop at a thrown exception: the
      controller as the calls left it, and the failure that stopped them. */
  datatype FontUpdate = FontUpdate(controller: Controller, error: Option<LoadError>)

  /** Runs one setter after an earlier update, unless the earlier one failed. */
  function Then(u: FontUpdate, step: Controller -> Result<Controller, LoadError>): FontUpdate {
    if u.error.Some? then u
    else match step(u.controller)
      case Success(c') => FontUpdate(c', None)
      case Failure(e) => FontUpdate(u.controller, Some(e))
  }

  /** `setFonts` as written: regular from the first path, bold from the
      second, and both the italic and the bold-italic slot from the fourth
      path; the third path is never read. The setters run in order, so a
      failing load keeps the slots set before it. */
  function SetFonts(c: Controller, font: string, boldFont: string, italicFont: string, boldItalicFont: string,
                    load: string -> Result<Font, LoadError>): (r: FontUpdate)
    ensures r.controller.margins == c.margins && r.controller.pagers == c.pagers
    ensures r.error.None? <==>
      load(font).Success? && load(boldFont).Success? && load(boldItalicFont).Success?
    ensures r.error.None? ==>
      r.controller.fonts
        == FontSet(load(font).value, load(boldFont).value, load(boldItalicFont).value, load(boldItalicFont).value)
    ensures load(font).Failure? ==> r == FontUpdate(c, Some(load(font).error))
    ensures load(font).Success? && load(boldFont).Failure? ==>
      r.controller.fonts == c.fonts.With(Regular, load(font).value) && r.error == Some(load(boldFont).error)
    ensures load(font).Success? && load(boldFont).Success? && load(boldItalicFont).Failure? ==>
      r.controller.fonts == c.fonts.With(Regular, load(font).value).With(Bold, load(boldFont).value)
      && r.error == Some(load(boldItalicFont).error)
  {
    Then(Then(Then(Then(FontUpdate(c, None),
      c1 => SetFont(c1, font, load)),
      c2 => SetBoldFont(c2, boldFont, load)),
      c3 => SetItalicFont(c3, boldItalicFont, load)),
      c4 => SetBoldItalicFont(c4, boldItalicFont, load))
  }

  /** The italic path given to `setFonts` has no effect whatsoever. */
  lemma SetFontsIgnoresItalicPath(c: Controller, font: string, boldFont: string, italic1: string, italic2: string,
                                  boldItalicFont: string, load: string -> Result<Font, LoadError>)
    ensures SetFonts(c, font, boldFont, italic1, boldItalicFont, load)
         == SetFonts(c, font, boldFont, italic2, boldItalicFont, load)
  {
  }

  /** `setFonts` as its documentation describes it: each slot from its own
      path, in the order regular, bold, italic, bold-italic. */
  function SetFontsIntended(c: Controller, font: string, boldFont: string, italicFont: string, boldItalicFont: string,
                            load: string -> Result<Font, LoadError>): (r: FontUpdate)
    ensures r.controller.margins == c.margins && r.controller.pagers == c.pagers
    ensures r.error.None? <==>
      load(font).Success? && load(boldFont).Success? && load(italicFont).Success? && load(boldItalicFont).Success?
    ensures r.error.None? ==>
      r.controller.fonts
        == FontSet(load(font).value, load(boldFont).value, load(italicFont).value, load(boldItalicFont).value)
  {
    Then(Then(Then(Then(FontUpdate(c, None),
      c1 => SetFont(c1, font, load)),
      c2 => SetBoldFont(c2, boldFont, load)),
      c3 => SetItalicFont(c3, italicFont, load)),
      c4 => SetBoldItalicFont(c4, boldItalicFont, load))
  }

  /** The discrepancy: whenever the italic and bold-italic files load as
      different fonts, `setFonts` puts the wrong font in the italic slot,
      while the intended version puts the italic font there. */
  lemma SetFontsItalicQuirk(c: Controller, font: string, boldFont: string, italicFont: string, boldItalicFont: string,
                            load: string -> Result<Font, LoadError>)
    requires load(font).Success? && load(boldFont).Success?
    requires load(italicFont).Success? && load(boldItalicFont).Success?
    requires load(italicFont).value != load(boldItalicFont).value
    ensures SetFonts(c, font, boldFont, italicFont, boldItalicFont, load).controller.fonts.italic
         != load(italicFont).value
    ensures SetFontsIntended(c, font, boldFont, italicFont, boldItalicFont, load).controller.fonts.italic
         == load(italicFont).value
  {
  }

  // ---- Everything a controller can be asked to do ----

  /** One call on a controller. */
  datatype ControllerCall =
    | AddPagerCall(pager: PagerRef)
    | SetSlotFontCall(slot: FontSlot, path: string)
    | SetFontsCall(font: string, boldFont: string, italicFont: string, boldItalicFont: string)

  /** The controller after one call; a call that throws leaves whatever its
      completed steps produced. */
  function Apply(c: Controller, call: ControllerCall, load: string -> Result<Font, LoadError>): Controller {
    match call
    case AddPagerCall(p) => AddPager(c, p)
    case SetSlotFontCall(slot, path) =>
      (match SetSlotFont(c, slot, path, load)
       case Success(c') => c'
       case Failure(_) => c)
    case SetFontsCall(f, b, i, bi) => SetFonts(c, f, b, i, bi, load).controller
  }

  /** The controller after a sequence of calls. */
  function Run(c: Controller, calls: seq<ControllerCall>, load: string -> Result<Font, LoadError>): Controller
    decreases |calls|
  {
    if |calls| == 0 then c else Run(Apply(c, calls[0], load), calls[1..], load)
  }

  /** Whatever the calls, the margins stay those given at construction, and
      the registry only grows at its end. */
  lemma {:induction false} MarginsNeverChange(c: Controller, calls: seq<ControllerCall>,
                                              load: string -> Result<Font, LoadError>)
    ensures Run(c, calls, load).margins == c.margins
    ensures |c.pagers| <= |Run(c, calls, load).pagers|
    ensures Run(c, calls, load).pagers[..|c.pagers|] == c.pagers
    decreases |calls|
  {
    if |calls| > 0 {
      var c' := Apply(c, calls[0], load);
      assert c'.margins == c.margins && c'.pagers[..|c.pagers|] == c.pagers;
      MarginsNeverChange(c', calls[1..], load);
      var final := Run(c, calls, load);
      assert final.pagers[..|c'.pagers|] == c'.pagers;
      assert final.pagers[..|c.pagers|] == c'.pagers[..|c.pagers|];
    }
  }
}
