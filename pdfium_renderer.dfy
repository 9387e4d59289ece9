/**
 * The in-process PDFium renderer: how a page's size in points and a requested
 * render size become pixel dimensions and a resolution, how a document's pages
 * are walked in order (an embedded single image short-circuits rasterising),
 * and how both Render overloads hold the native library's lock and release
 * every native handle they opened, on success and on failure alike.
 */
module PdfiumRenderer {
  import opened Wrappers
  import opened Images
  import opened Rounding

  /** PDF user-space units per inch. */
  const PointsPerInch: real := 72.0
  /** The largest pixel count the DPI branch lets either axis reach. */
  const MaxPixels: real := 10000.0

  /**
   * PdfRenderSize as the renderer reads it: a nullable Dpi, and nullable
   * Width/Height used only when Dpi is null.
   */
  datatype PdfRenderSize = PdfRenderSize(dpi: Option<real>, width: Option<int>, height: Option<int>)

  function DpiSize(dpi: real): PdfRenderSize { PdfRenderSize(Some(dpi), None, None) }
  function PixelSize(width: int, height: int): PdfRenderSize { PdfRenderSize(None, Some(width), Some(height)) }

  /** What RenderPageToNewImage computes before creating the target image. */
  datatype PageLayout = PageLayout(widthPx: int, heightPx: int, xDpi: int, yDpi: int)

  datatype RenderError =
    | SizeMissing                 // Width!.Value or Height!.Value on null: InvalidOperationException
    | DocumentLoadFailed(code: int) // PdfDocument.Load threw; the native reason is opaque here
    | InvalidImageSize(width: int, height: int) // imageContext.Create refused an axis of no pixels

  /** The image PdfiumImageExtractor.GetSingleImage returns for a page that is one embedded picture. */
  datatype EmbeddedImage = EmbeddedImage(id: nat)

  /** A page as the native library reports it; its drawing content is opaque. */
  datatype PdfPage = PdfPage(width: real, height: real, singleImage: Option<EmbeddedImage>, content: nat)

  datatype PdfDocument = PdfDocument(pages: seq<PdfPage>)

  /** The renderer's output images. */
  datatype MemoryImage =
    | Extracted(embedded: EmbeddedImage)
    | Rasterised(width: int, height: int, pixelFormat: ImagePixelFormat, xDpi: int, yDpi: int, page: PdfPage)

  /** Every page the native library hands out has a positive size; the code has no guard for anything else. */
  ghost predicate ValidDocument(doc: PdfDocument) {
    forall i :: 0 <= i < |doc.pages| ==> doc.pages[i].width > 0.0 && doc.pages[i].height > 0.0
  }

  function Min(a: real, b: real): real { if a <= b then a else b }

  /** The DPI actually used: the request, lowered so that neither axis exceeds MaxPixels. */
  function EffectiveDpi(dpi: real, widthIn: real, heightIn: real): (d: real)
    requires widthIn > 0.0 && heightIn > 0.0
    ensures d <= dpi && d <= MaxPixels / heightIn && d <= MaxPixels / widthIn
    ensures d == dpi || d == MaxPixels / heightIn || d == MaxPixels / widthIn
  {
    var capped := Min(dpi, MaxPixels / heightIn);
    Min(capped, MaxPixels / widthIn)
  }

  /** The size and resolution arithmetic of RenderPageToNewImage. */
  function ResolveLayout(widthPt: real, heightPt: real, size: PdfRenderSize): (r: Result<PageLayout, RenderError>)
    requires widthPt > 0.0 && heightPt > 0.0
    ensures size.dpi.Some? ==> r.Success?
    ensures size.dpi.None? ==> (r.Success? <==> size.width.Some? && size.height.Some?)
    ensures r.Failure? ==> r.error == SizeMissing
  {
    var widthIn := widthPt / PointsPerInch;
    var heightIn := heightPt / PointsPerInch;
    if size.dpi.Some? then
      Success(DpiLayout(widthIn, heightIn, EffectiveDpi(size.dpi.value, widthIn, heightIn)))
    else if size.width.None? || size.height.None? then
      Failure(SizeMissing)
    else
      Success(ExplicitLayout(widthIn, heightIn, size.width.value, size.height.value))
  }

  /** Lines 77-80: pixel size from the page size in inches at DPI `d`, and `d` itself as both resolutions. */
  function DpiLayout(widthIn: real, heightIn: real, d: real): PageLayout {
    PageLayout(Round(widthIn * d), Round(heightIn * d), Round(d), Round(d))
  }

  /** Lines 84-87, as written: both resolutions are computed from the requested width. */
  function ExplicitLayout(widthIn: real, heightIn: real, widthPx: int, heightPx: int): PageLayout
    requires widthIn > 0.0 && heightIn > 0.0
  {
    PageLayout(widthPx, heightPx,
               Round(widthPx as real / widthIn * PointsPerInch),
               Round(widthPx as real / heightIn * PointsPerInch))
  }

  /** The DPI branch: both resolutions are the rounded effective DPI, which never exceeds the request and equals it on a small enough page. */
  lemma DpiLayoutResolution(widthPt: real, heightPt: real, dpi: real)
    requires widthPt > 0.0 && heightPt > 0.0
    ensures var l := ResolveLayout(widthPt, heightPt, DpiSize(dpi)).value;
            var d := EffectiveDpi(dpi, widthPt / PointsPerInch, heightPt / PointsPerInch);
            && l.xDpi == l.yDpi == Round(d)
            && d <= dpi
            && (dpi * heightPt <= MaxPixels * PointsPerInch && dpi * widthPt <= MaxPixels * PointsPerInch ==> d == dpi)
  {
    var widthIn, heightIn := widthPt / PointsPerInch, heightPt / PointsPerInch;
    if dpi * heightPt <= MaxPixels * PointsPerInch && dpi * widthPt <= MaxPixels * PointsPerInch {
      assert dpi <= MaxPixels / heightIn;
      assert dpi <= MaxPixels / widthIn;
    }
  }

  /** The DPI branch never produces more than MaxPixels pixels on either axis. */
  lemma DpiLayoutCapped(widthPt: real, heightPt: real, dpi: real)
    requires widthPt > 0.0 && heightPt > 0.0
    ensures var l := ResolveLayout(widthPt, heightPt, DpiSize(dpi)).value;
            l.widthPx <= 10000 && l.heightPx <= 10000
  {
    var widthIn, heightIn := widthPt / PointsPerInch, heightPt / PointsPerInch;
    DpiLayoutUnfold(widthPt, heightPt, dpi);
    var d := EffectiveDpi(dpi, widthIn, heightIn);
    ScaleBelowCap(widthIn, d);
    ScaleBelowCap(heightIn, d);
    DpiLayoutWithin(widthIn, heightIn, d);
  }

  /** The DPI branch is DpiLayout at the effective DPI. */
  lemma DpiLayoutUnfold(widthPt: real, heightPt: real, dpi: real)
    requires widthPt > 0.0 && heightPt > 0.0
    ensures var widthIn, heightIn := widthPt / PointsPerInch, heightPt / PointsPerInch;
            ResolveLayout(widthPt, heightPt, DpiSize(dpi))
              == Success(DpiLayout(widthIn, heightIn, EffectiveDpi(dpi, widthIn, heightIn)))
  {
  }

  lemma ScaleBelowCap(inches: real, d: real)
    requires inches > 0.0 && d <= MaxPixels / inches
    ensures inches * d <= MaxPixels
  {
    assert inches * (MaxPixels / inches) == MaxPixels;
  }

  lemma DpiLayoutWithin(widthIn: real, heightIn: real, d: real)
    requires widthIn * d <= MaxPixels && heightIn * d <= MaxPixels
    ensures DpiLayout(widthIn, heightIn, d).widthPx <= 10000 && DpiLayout(widthIn, heightIn, d).heightPx <= 10000
  {
    RoundBelow(widthIn * d, 10000);
    RoundBelow(heightIn * d, 10000);
  }

  /** Asking for a higher DPI never gives a smaller image. */
  lemma DpiLayoutMonotone(widthPt: real, heightPt: real, dpi1: real, dpi2: real)
    requires widthPt > 0.0 && heightPt > 0.0 && dpi1 <= dpi2
    ensures var l1 := ResolveLayout(widthPt, heightPt, DpiSize(dpi1)).value;
            var l2 := ResolveLayout(widthPt, heightPt, DpiSize(dpi2)).value;
            l1.widthPx <= l2.widthPx && l1.heightPx <= l2.heightPx && l1.xDpi <= l2.xDpi
  {
    var widthIn, heightIn := widthPt / PointsPerInch, heightPt / PointsPerInch;
    DpiLayoutUnfold(widthPt, heightPt, dpi1);
    DpiLayoutUnfold(widthPt, heightPt, dpi2);
    DpiLayoutGrows(widthIn, heightIn, EffectiveDpi(dpi1, widthIn, heightIn), EffectiveDpi(dpi2, widthIn, heightIn));
  }

  lemma DpiLayoutGrows(widthIn: real, heightIn: real, d1: real, d2: real)
    requires widthIn > 0.0 && heightIn > 0.0 && d1 <= d2
    ensures DpiLayout(widthIn, heightIn, d1).widthPx <= DpiLayout(widthIn, heightIn, d2).widthPx
    ensures DpiLayout(widthIn, heightIn, d1).heightPx <= DpiLayout(widthIn, heightIn, d2).heightPx
    ensures DpiLayout(widthIn, heightIn, d1).xDpi <= DpiLayout(widthIn, heightIn, d2).xDpi
  {
    ScaleMonotone(widthIn, d1, d2);
    ScaleMonotone(heightIn, d1, d2);
    RoundMonotone(widthIn * d1, widthIn * d2);
    RoundMonotone(heightIn * d1, heightIn * d2);
    RoundMonotone(d1, d2);
  }

  lemma ScaleMonotone(k: real, a: real, b: real)
    requires k > 0.0 && a <= b
    ensures k * a <= k * b
  {
  }

  /** A US Letter page (612 x 792 pt) at 150 DPI is 1275 x 1650 px at 150 x 150 DPI. */
  lemma LetterPageAt150Dpi()
    ensures ResolveLayout(612.0, 792.0, DpiSize(150.0)) == Success(PageLayout(1275, 1650, 150, 150))
  {
    assert 612.0 / PointsPerInch == 8.5;
    assert 792.0 / PointsPerInch == 11.0;
    assert EffectiveDpi(150.0, 8.5, 11.0) == 150.0;
    RoundOfInteger(1275);
    RoundOfInteger(1650);
    RoundOfInteger(150);
  }

  /**
   * The explicit-size branch as written: the pixel size is the request, and
   * BOTH resolutions divide the requested width, by the width and by the
   * height in inches respectively, then multiply by 72.
   */
  lemma ExplicitLayoutAsWritten(widthPt: real, heightPt: real, widthPx: int, heightPx: int)
    requires widthPt > 0.0 && heightPt > 0.0
    ensures var l := ResolveLayout(widthPt, heightPt, PixelSize(widthPx, heightPx)).value;
            && l.widthPx == widthPx && l.heightPx == heightPx
            && l.xDpi == Round(widthPx as real * PointsPerInch * PointsPerInch / widthPt)
            && l.yDpi == Round(widthPx as real * PointsPerInch * PointsPerInch / heightPt)
  {
    var widthIn, heightIn := widthPt / PointsPerInch, heightPt / PointsPerInch;
    assert widthPx as real / widthIn * PointsPerInch == widthPx as real * PointsPerInch * PointsPerInch / widthPt;
    assert widthPx as real / heightIn * PointsPerInch == widthPx as real * PointsPerInch * PointsPerInch / heightPt;
  }

  /** As written, the vertical resolution does not depend on the requested height at all. */
  lemma ExplicitYDpiIgnoresHeight(widthPt: real, heightPt: real, widthPx: int, h1: int, h2: int)
    requires widthPt > 0.0 && heightPt > 0.0
    ensures ResolveLayout(widthPt, heightPt, PixelSize(widthPx, h1)).value.yDpi
         == ResolveLayout(widthPt, heightPt, PixelSize(widthPx, h2)).value.yDpi
  {
  }

  /** A Letter page requested at 100 x 100 px carries 847 x 655 DPI, whatever height was asked for. */
  lemma LetterPageAt100By100Px()
    ensures ResolveLayout(612.0, 792.0, PixelSize(100, 100)) == Success(PageLayout(100, 100, 847, 655))
  {
    assert 612.0 / PointsPerInch == 8.5;
    assert 792.0 / PointsPerInch == 11.0;
    assert 100.0 / 8.5 * PointsPerInch == 14400.0 / 17.0;
    assert 846.5 < 14400.0 / 17.0 < 847.5;
    assert 100.0 / 11.0 * PointsPerInch == 7200.0 / 11.0;
    assert 654.5 < 7200.0 / 11.0 < 655.5;
  }

  /** The target image can be created: both axes have at least one pixel. */
  predicate HasPixels(l: PageLayout) {
    l.widthPx > 0 && l.heightPx > 0
  }

  /**
   * RenderPageToNewImage without its pixel transfer: the target image it
   * creates and the resolution it sets. Creating an image with an axis of no
   * pixels fails, whichever branch computed the size.
   */
  function RenderPageToNewImage(page: PdfPage, size: PdfRenderSize): (r: Result<MemoryImage, RenderError>)
    requires page.width > 0.0 && page.height > 0.0
    ensures var layout := ResolveLayout(page.width, page.height, size);
            && (r.Success? <==> layout.Success? && HasPixels(layout.value))
            && (layout.Failure? ==> r == Failure(SizeMissing))
            && (layout.Success? && !HasPixels(layout.value) ==>
                  r == Failure(InvalidImageSize(layout.value.widthPx, layout.value.heightPx)))
    ensures r.Success? ==>
              var l := ResolveLayout(page.width, page.height, size).value;
              && r.value.Rasterised? && r.value.pixelFormat == RGB24 && r.value.page == page
              && r.value.width == l.widthPx && r.value.height == l.heightPx
              && r.value.xDpi == l.xDpi && r.value.yDpi == l.yDpi
  {
    match ResolveLayout(page.width, page.height, size)
    case Failure(e) => Failure(e)
    case Success(l) =>
      if HasPixels(l) then Success(Rasterised(l.widthPx, l.heightPx, RGB24, l.xDpi, l.yDpi, page))
      else Failure(InvalidImageSize(l.widthPx, l.heightPx))
  }

  /** A tiny DPI rounds an axis of a Letter page to no pixels, and the page cannot be rendered. */
  lemma LetterPageAtTinyDpiFails()
    ensures RenderPageToNewImage(PdfPage(612.0, 792.0, None, 0), DpiSize(0.05)) == Failure(InvalidImageSize(0, 1))
  {
    assert 612.0 / PointsPerInch * 0.05 == 0.425;
    assert 792.0 / PointsPerInch * 0.05 == 0.55;
  }

  /** One step of RenderDocument: the extractor's image if it found one, otherwise a freshly rendered page. */
  function PageImage(page: PdfPage, size: PdfRenderSize): (r: Result<MemoryImage, RenderError>)
    requires page.width > 0.0 && page.height > 0.0
    ensures page.singleImage.Some? ==> r == Success(Extracted(page.singleImage.value))
    ensures page.singleImage.None? ==> r == RenderPageToNewImage(page, size)
  {
    if page.singleImage.Some? then Success(Extracted(page.singleImage.value))
    else RenderPageToNewImage(page, size)
  }

  /** What a consumer of the lazy sequence sees: the images yielded, then the exception that ended it, if any. */
  datatype RenderStream = RenderStream(yielded: seq<MemoryImage>, failure: Option<RenderError>)

  /** The sequence RenderDocument produces for the pages from some index on. */
  ghost function DocumentStream(pages: seq<PdfPage>, size: PdfRenderSize): RenderStream
    requires forall i :: 0 <= i < |pages| ==> pages[i].width > 0.0 && pages[i].height > 0.0
    decreases |pages|
  {
    if pages == [] then RenderStream([], None)
    else match PageImage(pages[0], size)
      case Failure(e) => RenderStream([], Some(e))
      case Success(img) =>
        var rest := DocumentStream(pages[1..], size);
        RenderStream([img] + rest.yielded, rest.failure)
  }

  /**
   * The document stream yields the pages' images in page order, stops at the
   * first page that fails, and yields every page when none fails.
   */
  lemma {:induction false} DocumentStreamShape(pages: seq<PdfPage>, size: PdfRenderSize)
    requires forall i :: 0 <= i < |pages| ==> pages[i].width > 0.0 && pages[i].height > 0.0
    ensures var s := DocumentStream(pages, size);
            && |s.yielded| <= |pages|
            && (forall k :: 0 <= k < |s.yielded| ==> PageImage(pages[k], size) == Success(s.yielded[k]))
            && (s.failure.None? <==> |s.yielded| == |pages|)
            && (s.failure.Some? ==> PageImage(pages[|s.yielded|], size) == Failure(s.failure.value))
    decreases |pages|
  {
    if pages != [] && PageImage(pages[0], size).Success? {
      DocumentStreamShape(pages[1..], size);
      var s, rest := DocumentStream(pages, size), DocumentStream(pages[1..], size);
      forall k | 0 <= k < |s.yielded|
        ensures PageImage(pages[k], size) == Success(s.yielded[k])
      {
        if k > 0 { assert pages[k] == pages[1..][k - 1]; }
      }
      if s.failure.Some? {
        assert pages[|s.yielded|] == pages[1..][|rest.yielded|];
      }
    }
  }

  /** A document whose pages all resolve yields exactly one image per page, in page order. */
  lemma DocumentStreamComplete(pages: seq<PdfPage>, size: PdfRenderSize)
    requires forall i :: 0 <= i < |pages| ==> pages[i].width > 0.0 && pages[i].height > 0.0
    requires forall i :: 0 <= i < |pages| ==> PageImage(pages[i], size).Success?
    ensures var s := DocumentStream(pages, size);
            && s.failure.None? && |s.yielded| == |pages|
            && forall k :: 0 <= k < |pages| ==> s.yielded[k] == PageImage(pages[k], size).value
  {
    DocumentStreamShape(pages, size);
  }

  /**
   * A DPI request always resolves a layout, so it fails only on a page that
   * has to be rasterised and rounds an axis to no pixels; without such a page
   * every page of the document yields an image.
   */
  lemma DpiRequestFailsOnlyWithoutPixels(pages: seq<PdfPage>, dpi: real)
    requires forall i :: 0 <= i < |pages| ==> pages[i].width > 0.0 && pages[i].height > 0.0
    ensures var s := DocumentStream(pages, DpiSize(dpi));
            && (s.failure.None? <==>
                  forall i :: 0 <= i < |pages| && pages[i].singleImage.None? ==>
                    HasPixels(ResolveLayout(pages[i].width, pages[i].height, DpiSize(dpi)).value))
            && (s.failure.None? ==> |s.yielded| == |pages|)
            && (s.failure.Some? ==> s.failure.value.InvalidImageSize?)
  {
    var size := DpiSize(dpi);
    DocumentStreamShape(pages, size);
    var s := DocumentStream(pages, size);
    if forall i :: 0 <= i < |pages| && pages[i].singleImage.None? ==>
         HasPixels(ResolveLayout(pages[i].width, pages[i].height, size).value) {
      DocumentStreamComplete(pages, size);
    }
  }

  /**
   * The process-wide PDFium instance as far as the renderer's discipline goes:
   * how deeply its lock is held and how many native handles are open.
   */
  class PdfiumNativeLibrary {
    var lockDepth: nat
    var openDocuments: nat
    var openPages: nat
    var pinnedHandles: nat

    constructor ()
      ensures lockDepth == 0 && openDocuments == 0 && openPages == 0 && pinnedHandles == 0
    {
      lockDepth, openDocuments, openPages, pinnedHandles := 0, 0, 0, 0;
    }

    /** `lock (PdfiumNativeLibrary.Instance)` on entry (the monitor is re-entrant). */
    method Enter()
      modifies this
      ensures lockDepth == old(lockDepth) + 1
      ensures openDocuments == old(openDocuments) && openPages == old(openPages) && pinnedHandles == old(pinnedHandles)
    {
      lockDepth := lockDepth + 1;
    }

    method Exit()
      requires lockDepth > 0
      modifies this
      ensures lockDepth == old(lockDepth) - 1
      ensures openDocuments == old(openDocuments) && openPages == old(openPages) && pinnedHandles == old(pinnedHandles)
    {
      lockDepth := lockDepth - 1;
    }

    /** GCHandle.Alloc(buffer, Pinned) and handle.Free(). */
    method Pin()
      modifies this
      ensures pinnedHandles == old(pinnedHandles) + 1
      ensures lockDepth == old(lockDepth) && openDocuments == old(openDocuments) && openPages == old(openPages)
    {
      pinnedHandles := pinnedHandles + 1;
    }

    method Unpin()
      requires pinnedHandles > 0
      modifies this
      ensures pinnedHandles == old(pinnedHandles) - 1
      ensures lockDepth == old(lockDepth) && openDocuments == old(openDocuments) && openPages == old(openPages)
    {
      pinnedHandles := pinnedHandles - 1;
    }

    /** PdfDocument.Load: the parse outcome is an input; a document handle is open only on success. */
    method LoadDocument(parsed: Result<PdfDocument, int>) returns (r: Result<PdfDocument, RenderError>)
      requires lockDepth > 0
      modifies this
      ensures r.Success? <==> parsed.Success?
      ensures r.Success? ==> r.value == parsed.value && openDocuments == old(openDocuments) + 1
      ensures r.Failure? ==> r.error == DocumentLoadFailed(parsed.error) && openDocuments == old(openDocuments)
      ensures lockDepth == old(lockDepth) && openPages == old(openPages) && pinnedHandles == old(pinnedHandles)
    {
      match parsed
      case Failure(code) =>
        r := Failure(DocumentLoadFailed(code));
      case Success(doc) =>
        openDocuments := openDocuments + 1;
        r := Success(doc);
    }

    /** Disposing the document (`using var doc`). */
    method CloseDocument()
      requires openDocuments > 0
      modifies this
      ensures openDocuments == old(openDocuments) - 1
      ensures lockDepth == old(lockDepth) && openPages == old(openPages) && pinnedHandles == old(pinnedHandles)
    {
      openDocuments := openDocuments - 1;
    }

    /** doc.GetPage(pageIndex) */
    method OpenPage(doc: PdfDocument, pageIndex: nat) returns (page: PdfPage)
      requires lockDepth > 0 && openDocuments > 0 && pageIndex < |doc.pages|
      modifies this
      ensures page == doc.pages[pageIndex]
      ensures openPages == old(openPages) + 1
      ensures lockDepth == old(lockDepth) && openDocuments == old(openDocuments) && pinnedHandles == old(pinnedHandles)
    {
      openPages := openPages + 1;
      page := doc.pages[pageIndex];
    }

    /** Disposing the page (`using var page`). */
    method ClosePage()
      requires openPages > 0
      modifies this
      ensures openPages == old(openPages) - 1
      ensures lockDepth == old(lockDepth) && openDocuments == old(openDocuments) && pinnedHandles == old(pinnedHandles)
    {
      openPages := openPages - 1;
    }
  }

  /**
   * RenderDocument: pages 0..pageCount-1 in order, each page opened under the
   * lock and closed again before the next one, whether it yields or throws.
   */
  method RenderDocument(lib: PdfiumNativeLibrary, doc: PdfDocument, size: PdfRenderSize) returns (s: RenderStream)
    requires ValidDocument(doc)
    requires lib.lockDepth > 0 && lib.openDocuments > 0
    modifies lib
    ensures s == DocumentStream(doc.pages, size)
    ensures lib.lockDepth == old(lib.lockDepth) && lib.openDocuments == old(lib.openDocuments)
    ensures lib.openPages == old(lib.openPages) && lib.pinnedHandles == old(lib.pinnedHandles)
  {
    var pageCount := |doc.pages|;
    var images: seq<MemoryImage> := [];
    var pageIndex := 0;
    while pageIndex < pageCount
      invariant 0 <= pageIndex <= pageCount
      invariant DocumentStream(doc.pages, size)
             == RenderStream(images + DocumentStream(doc.pages[pageIndex..], size).yielded,
                             DocumentStream(doc.pages[pageIndex..], size).failure)
      invariant lib.lockDepth == old(lib.lockDepth) && lib.openDocuments == old(lib.openDocuments)
      invariant lib.openPages == old(lib.openPages) && lib.pinnedHandles == old(lib.pinnedHandles)
    {
      var page := lib.OpenPage(doc, pageIndex);
      var result := PageImage(page, size);
      lib.ClosePage();
      assert doc.pages[pageIndex..][0] == page;
      assert doc.pages[pageIndex..][1..] == doc.pages[pageIndex + 1..];
      if result.Failure? {
        s := RenderStream(images, Some(result.error));
        return;
      }
      images := images + [result.value];
      pageIndex := pageIndex + 1;
    }
    s := RenderStream(images, None);
  }

  /**
   * Render(path): the lock is taken, the document loaded (a load failure ends
   * the call before anything is yielded), its pages rendered, the document
   * closed and the lock released.
   */
  method RenderFromPath(lib: PdfiumNativeLibrary, parsed: Result<PdfDocument, int>, size: PdfRenderSize)
    returns (s: RenderStream)
    requires parsed.Success? ==> ValidDocument(parsed.value)
    modifies lib
    ensures parsed.Failure? ==> s == RenderStream([], Some(DocumentLoadFailed(parsed.error)))
    ensures parsed.Success? ==> s == DocumentStream(parsed.value.pages, size)
    ensures lib.lockDepth == old(lib.lockDepth) && lib.openDocuments == old(lib.openDocuments)
    ensures lib.openPages == old(lib.openPages) && lib.pinnedHandles == old(lib.pinnedHandles)
  {
    lib.Enter();
    var loaded := lib.LoadDocument(parsed);
    if loaded.Failure? {
      s := RenderStream([], Some(loaded.error));
    } else {
      s := RenderDocument(lib, loaded.value, size);
      lib.CloseDocument();
    }
    lib.Exit();
  }

  /**
   * Render(buffer, length): as Render(path), with the buffer pinned for the
   * whole enumeration and unpinned in the finally block on every path.
   */
  method RenderFromBuffer(lib: PdfiumNativeLibrary, parsed: Result<PdfDocument, int>, size: PdfRenderSize)
    returns (s: RenderStream)
    requires parsed.Success? ==> ValidDocument(parsed.value)
    modifies lib
    ensures parsed.Failure? ==> s == RenderStream([], Some(DocumentLoadFailed(parsed.error)))
    ensures parsed.Success? ==> s == DocumentStream(parsed.value.pages, size)
    ensures lib.lockDepth == old(lib.lockDepth) && lib.openDocuments == old(lib.openDocuments)
    ensures lib.openPages == old(lib.openPages) && lib.pinnedHandles == old(lib.pinnedHandles)
  {
    lib.Enter();
    lib.Pin();
    var loaded := lib.LoadDocument(parsed);
    if loaded.Failure? {
      s := RenderStream([], Some(loaded.error));
    } else {
      s := RenderDocument(lib, loaded.value, size);
      lib.CloseDocument();
    }
    lib.Unpin();
    lib.Exit();
  }
}
