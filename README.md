# NAPS2 rendering, OCR selection and preview navigation — a Dafny model

This project models the core of NAPS2, the document-scanning application. It covers:

- **PDF page rendering with Pdfium** (`PdfiumPdfRenderer`). The model computes the pixel size and
  resolution of each rendered page from a DPI request or from an explicit pixel size. It renders
  every page of a document in order, and uses a page's single embedded image instead of
  rasterising when there is one. Both `Render` overloads hold the native-library lock, load the
  document, and release the pages, the document and the pinned buffer on every path.
- **PDF rendering through a worker process** (`PdfiumWorkerCoordinator`). It rejects passwords.
  It sends the path and one DPI (300 when none is requested) to a worker, and returns the single
  image decoded from the worker's answer.
- **OCR engine selection** (`OcrManager`). The engine list runs from newest to oldest. The readiness,
  upgrade and install predicates, the first-match engine choices and the default OCR parameters
  are all modelled, with the app's and the user's precedence between configurations.
- **GDI+ image loading** (`GdiImageContext`). This covers loading by path and by stream, tagging an
  image with its file format, enumerating the frames of a multi-frame bitmap, creating a blank
  image with its black-and-white or grayscale palette, and the type check before a transform.
- **Preview window navigation** (`PreviewForm`). This covers the current image and its index, going
  to another image, the previous/next commands and keys, and what is shown or whether the window
  closes after a delete.
- **Save dialogs** (`DialogHelper`). This covers the filters each save prompt offers, the initial
  directory, the OK/cancel result, and the filter entry the image prompt preselects from the last
  used extension. It also covers updating that extension after OK.

Code that computes values is modelled with datatypes and functions. Code that changes state is
modelled with classes, methods and loops, each proved against a specification function:

- the native library's lock, documents, pages and pinned handles;
- the worker pool's log of dispatched jobs;
- a GDI bitmap's active frame and palette;
- the preview form and its shared image list;
- the user's last image extension.

I/O and foreign code become parameters of the model. These are:

- the parsed PDF and its load error code;
- the embedded-image extractor's answer;
- the GDI+ decode outcome and `File.Exists`;
- the format detected from an extension or from the first bytes;
- the worker's reply;
- the `Path` helpers;
- the user's dialog answer and delete confirmation.

The explicit-size branch of `RenderPageToNewImage` is modelled as the code is written
(PdfiumPdfRenderer.cs:86-87):

- Line 87 divides `widthInPx`, not `heightInPx`, by the page height in inches. So the vertical
  resolution never depends on the requested height (`ExplicitYDpiIgnoresHeight`).
- Both resolutions multiply by 72 after dividing pixels by inches. So a Letter page requested at
  100 × 100 px carries 847 × 655 DPI (`LetterPageAt100By100Px`).

## Model

| member | source | states |
|---|---|---|
| Rounding.Round | NAPS2.Sdk/ImportExport/Pdf/PdfiumPdfRenderer.cs:77-80 | `Math.Round`: the result lies within 0.5 of its argument, and a tie goes to the even integer |
| Rounding.RoundMonotone | NAPS2.Sdk/ImportExport/Pdf/PdfiumPdfRenderer.cs:77-78 | rounding never reverses the order of two values |
| Rounding.RoundOfInteger | NAPS2.Sdk/ImportExport/Pdf/PdfiumPdfRenderer.cs:79-80 | an integral DPI is kept unchanged |
| Rounding.RoundBelow | NAPS2.Sdk/ImportExport/Pdf/PdfiumPdfRenderer.cs:77-78 | a value at most an integer n rounds to at most n, which is the basis of the 10000-pixel cap |
| PdfiumRenderer.EffectiveDpi | NAPS2.Sdk/ImportExport/Pdf/PdfiumPdfRenderer.cs:73-75 | the capped DPI is at most the request and at most 10000 divided by either page dimension in inches, and equals one of the three |
| PdfiumRenderer.ResolveLayout | NAPS2.Sdk/ImportExport/Pdf/PdfiumPdfRenderer.cs:65-88 | a DPI request always resolves; otherwise the layout resolves exactly when both width and height are given, and fails with a missing-size error when either is null |
| PdfiumRenderer.DpiLayoutResolution | NAPS2.Sdk/ImportExport/Pdf/PdfiumPdfRenderer.cs:73-80 | in the DPI branch xDpi == yDpi == Round(effective DPI); the effective DPI never exceeds the request, and equals it when the page fits within 10000 px on both axes |
| PdfiumRenderer.DpiLayoutCapped | NAPS2.Sdk/ImportExport/Pdf/PdfiumPdfRenderer.cs:72-78 | for any page and any DPI request, the width and the height in pixels are at most 10000 |
| PdfiumRenderer.DpiLayoutWithin | NAPS2.Sdk/ImportExport/Pdf/PdfiumPdfRenderer.cs:77-78 | scaled dimensions at most 10000 round to pixel counts at most 10000 |
| PdfiumRenderer.DpiLayoutMonotone | NAPS2.Sdk/ImportExport/Pdf/PdfiumPdfRenderer.cs:73-79 | a larger requested DPI never gives a smaller width, height or resolution |
| PdfiumRenderer.DpiLayoutGrows | NAPS2.Sdk/ImportExport/Pdf/PdfiumPdfRenderer.cs:77-79 | a larger effective DPI never gives smaller pixel counts or resolution |
| PdfiumRenderer.LetterPageAt150Dpi | NAPS2.Sdk/ImportExport/Pdf/PdfiumPdfRenderer.cs:65-80 | a 612 × 792 pt page at 150 DPI is 1275 × 1650 px at 150 × 150 DPI |
| PdfiumRenderer.ExplicitLayoutAsWritten | NAPS2.Sdk/ImportExport/Pdf/PdfiumPdfRenderer.cs:84-87 | an explicit size is used exactly as given; xDpi = Round(widthPx / widthIn * 72) and yDpi = Round(widthPx / heightIn * 72) |
| PdfiumRenderer.ExplicitYDpiIgnoresHeight | NAPS2.Sdk/ImportExport/Pdf/PdfiumPdfRenderer.cs:87 | two explicit requests that differ only in height carry the same vertical resolution |
| PdfiumRenderer.LetterPageAt100By100Px | NAPS2.Sdk/ImportExport/Pdf/PdfiumPdfRenderer.cs:84-87 | a 612 × 792 pt page at 100 × 100 px carries 847 × 655 DPI |
| PdfiumRenderer.RenderPageToNewImage | NAPS2.Sdk/ImportExport/Pdf/PdfiumPdfRenderer.cs:63-91 | the created image is RGB24, and has exactly the resolved pixel size and resolution; a missing width or height fails, and so does a layout with an axis of no pixels, which `imageContext.Create` refuses |
| PdfiumRenderer.LetterPageAtTinyDpiFails | NAPS2.Sdk/ImportExport/Pdf/PdfiumPdfRenderer.cs:73-90 | a Letter page at 0.05 DPI rounds to 0 × 1 px, and rendering it fails |
| PdfiumRenderer.PageImage | NAPS2.Sdk/ImportExport/Pdf/PdfiumPdfRenderer.cs:51-59 | the extracted embedded image wins when there is one; otherwise the page is rasterised |
| PdfiumRenderer.DocumentStreamShape | NAPS2.Sdk/ImportExport/Pdf/PdfiumPdfRenderer.cs:48-60 | the i-th image yielded is page i's image; the stream stops at the first failing page with that page's error, and yields one image per page when none fails |
| PdfiumRenderer.DocumentStreamComplete | NAPS2.Sdk/ImportExport/Pdf/PdfiumPdfRenderer.cs:48-60 | when every page resolves, exactly pageCount images are yielded, in page order |
| PdfiumRenderer.DpiRequestFailsOnlyWithoutPixels | NAPS2.Sdk/ImportExport/Pdf/PdfiumPdfRenderer.cs:53-90 | with a DPI request, the document renders completely exactly when every page to be rasterised resolves to at least one pixel on each axis; otherwise it stops on an invalid image size |
| PdfiumRenderer.PdfiumNativeLibrary.constructor | NAPS2.Sdk/ImportExport/Pdf/PdfiumPdfRenderer.cs:13 | the library starts unlocked, with nothing open or pinned |
| PdfiumRenderer.PdfiumNativeLibrary.Enter | NAPS2.Sdk/ImportExport/Pdf/PdfiumPdfRenderer.cs:13 | taking the lock raises the lock depth by one and changes nothing else |
| PdfiumRenderer.PdfiumNativeLibrary.Exit | NAPS2.Sdk/ImportExport/Pdf/PdfiumPdfRenderer.cs:20-42 | leaving a `lock` block (line 20 for the path overload, line 42 for the buffer overload) lowers the held lock's depth by one and changes nothing else |
| PdfiumRenderer.PdfiumNativeLibrary.Pin | NAPS2.Sdk/ImportExport/Pdf/PdfiumPdfRenderer.cs:29 | pinning the buffer adds one pinned handle and changes nothing else |
| PdfiumRenderer.PdfiumNativeLibrary.Unpin | NAPS2.Sdk/ImportExport/Pdf/PdfiumPdfRenderer.cs:38-41 | freeing the handle removes one pinned handle and changes nothing else |
| PdfiumRenderer.PdfiumNativeLibrary.LoadDocument | NAPS2.Sdk/ImportExport/Pdf/PdfiumPdfRenderer.cs:15 | under the lock, a parsed document is opened (one more open document); a parse failure returns the load error and opens nothing |
| PdfiumRenderer.PdfiumNativeLibrary.CloseDocument | NAPS2.Sdk/ImportExport/Pdf/PdfiumPdfRenderer.cs:15 | disposing the document closes one open document |
| PdfiumRenderer.PdfiumNativeLibrary.OpenPage | NAPS2.Sdk/ImportExport/Pdf/PdfiumPdfRenderer.cs:51 | GetPage returns page pageIndex of the open document and opens one page |
| PdfiumRenderer.PdfiumNativeLibrary.ClosePage | NAPS2.Sdk/ImportExport/Pdf/PdfiumPdfRenderer.cs:51 | disposing the page closes one open page |
| PdfiumRenderer.RenderDocument | NAPS2.Sdk/ImportExport/Pdf/PdfiumPdfRenderer.cs:45-61 | the page loop produces exactly the document stream; every page it opens is closed again |
| PdfiumRenderer.RenderFromPath | NAPS2.Sdk/ImportExport/Pdf/PdfiumPdfRenderer.cs:9-21 | a load failure yields nothing and reports the error; otherwise the document stream; the lock is released and the document closed on every path |
| PdfiumRenderer.RenderFromBuffer | NAPS2.Sdk/ImportExport/Pdf/PdfiumPdfRenderer.cs:23-43 | as for the path overload, and the pinned handle is freed on every path, including a load failure |
| PdfiumWorker.TransmittedDpi | NAPS2.Sdk/ImportExport/Pdf/PdfiumWorkerCoordinator.cs:25 | the requested DPI is sent when there is one, 300 otherwise |
| PdfiumWorker.TransmittedDpiIgnoresPixelSize | NAPS2.Sdk/ImportExport/Pdf/PdfiumWorkerCoordinator.cs:24-25 | requests that agree on DPI reach the worker identically, whatever width and height they name |
| PdfiumWorker.WorkerPool.constructor | NAPS2.Sdk/ImportExport/Pdf/PdfiumWorkerCoordinator.cs:7 | a new pool has dispatched no job |
| PdfiumWorker.WorkerPool.UseRenderPdf | NAPS2.Sdk/ImportExport/Pdf/PdfiumWorkerCoordinator.cs:22-27 | exactly one RenderPdf(path, dpi) job is logged, and its answer is returned |
| PdfiumWorker.PdfiumWorkerCoordinator.constructor | NAPS2.Sdk/ImportExport/Pdf/PdfiumWorkerCoordinator.cs:9-12 | the coordinator keeps the pool it is given |
| PdfiumWorker.PdfiumWorkerCoordinator.RenderFromPath | NAPS2.Sdk/ImportExport/Pdf/PdfiumWorkerCoordinator.cs:14-29 | with a password it fails without using the pool; otherwise exactly one job carrying the path and the transmitted DPI is logged, and the result is the single image decoded from the reply, or the decoder's error when the reply is not a decodable image |
| PdfiumWorker.PdfiumWorkerCoordinator.RenderFromBuffer | NAPS2.Sdk/ImportExport/Pdf/PdfiumWorkerCoordinator.cs:31-34 | always fails as not implemented |
| Ocr.NewOcrManager | NAPS2.Sdk/Ocr/OcrManager.cs:14-25 | the engines are listed newest first: 4.00b4, 3.04, 3.04 XP, 3.02, system |
| Ocr.FirstIndex | NAPS2.Sdk/Ocr/OcrManager.cs:35 | `FirstOrDefault`: the index of the first engine matching the predicate, with no match before it; none only when nothing matches |
| Ocr.FirstWhere | NAPS2.Sdk/Ocr/OcrManager.cs:47 | there is a result exactly when some engine matches, and the result is a matching engine of the list |
| Ocr.ActiveEngine | NAPS2.Sdk/Ocr/OcrManager.cs:47 | a supported, installed engine with languages from the list, and null exactly when there is none |
| Ocr.InstalledEngine | NAPS2.Sdk/Ocr/OcrManager.cs:49 | an installed engine with languages, and null exactly when there is none |
| Ocr.EngineToInstall | NAPS2.Sdk/Ocr/OcrManager.cs:51 | a supported installable engine, and null exactly when there is none |
| Ocr.IsReady | NAPS2.Sdk/Ocr/OcrManager.cs:29 | some engine is supported, installed and has a language; this holds exactly when ActiveEngine is not null |
| Ocr.IsNewestReady | NAPS2.Sdk/Ocr/OcrManager.cs:31-39 | only the first supported engine is inspected, and it must be installed with a language; false when no engine is supported; when it holds, InstalledEngine is not null |
| Ocr.CanUpgrade | NAPS2.Sdk/Ocr/OcrManager.cs:41 | the newest supported engine is not ready and some engine is installed; never when nothing is installed, and never when a package must be installed |
| Ocr.MustUpgrade | NAPS2.Sdk/Ocr/OcrManager.cs:43 | no engine is ready and some engine is installed; then there is no active engine and no package install is due |
| Ocr.MustInstallPackage | NAPS2.Sdk/Ocr/OcrManager.cs:45 | every engine is uninstalled and either unsupported or not installable; then EngineToInstall and InstalledEngine are both null |
| Ocr.IsReadyIffActiveEngine | NAPS2.Sdk/Ocr/OcrManager.cs:29-47 | IsReady holds exactly when there is an active engine |
| Ocr.NewestReadyImpliesReady | NAPS2.Sdk/Ocr/OcrManager.cs:29-39 | the newest supported engine being ready implies that OCR is ready |
| Ocr.MustUpgradeImpliesCanUpgrade | NAPS2.Sdk/Ocr/OcrManager.cs:41-43 | whenever an upgrade is required, one is possible |
| Ocr.MustInstallPackageIff | NAPS2.Sdk/Ocr/OcrManager.cs:45 | a package must be installed exactly when no engine is installed and none is installable |
| Ocr.MustInstallPackageExcludes | NAPS2.Sdk/Ocr/OcrManager.cs:41-51 | when a package must be installed, there is no active, installed or installable engine, OCR is not ready, and no upgrade is possible or required |
| Ocr.ActiveEngineImpliesInstalledEngine | NAPS2.Sdk/Ocr/OcrManager.cs:47-49 | an active engine implies an installed engine |
| Ocr.AppLevelParams | NAPS2.Sdk/Ocr/OcrManager.cs:57-64 | null exactly when the app language is null or white space; otherwise the app language and mode |
| Ocr.UserLevelParams | NAPS2.Sdk/Ocr/OcrManager.cs:66-73 | null exactly when the user language is null or white space; otherwise the user language and mode |
| Ocr.StrLessIrreflexive | NAPS2.Sdk/Ocr/OcrManager.cs:75 | the name order used by `OrderBy` is irreflexive |
| Ocr.StrLessTransitive | NAPS2.Sdk/Ocr/OcrManager.cs:75 | the name order is transitive |
| Ocr.StrLessTotal | NAPS2.Sdk/Ocr/OcrManager.cs:75 | any two distinct names are ordered one way or the other |
| Ocr.LeastByName | NAPS2.Sdk/Ocr/OcrManager.cs:75 | the first element of the sorted sequence: no name is below it, and every earlier language has a strictly greater name (stable sort) |
| Ocr.LeastIsBelowAll | NAPS2.Sdk/Ocr/OcrManager.cs:75 | a name below the current minimum is below every name seen so far |
| Ocr.ArbitraryParams | NAPS2.Sdk/Ocr/OcrManager.cs:75 | default mode; the code of the active engine's least-named language, the first one when several share that name, as the stable `OrderBy(...).First()` picks it; a null code exactly when no engine is active |
| Ocr.EqualNamesKeepListOrder | NAPS2.Sdk/Ocr/OcrManager.cs:75 | of two installed languages with the same name, the earlier one's code is chosen |
| Ocr.DefaultParams | NAPS2.Sdk/Ocr/OcrManager.cs:53-93 | null exactly when the app disables OCR, or when it neither forces nor disables it and the user has not enabled it; app settings win over user settings over the arbitrary choice when the app forces OCR, and the user's win otherwise |
| Ocr.DefaultParamsLanguage | NAPS2.Sdk/Ocr/OcrManager.cs:53-93 | the default language is a non-blank configured code or one of the active engine's languages, and is null only when OCR is not ready |
| Ocr.AppOverrideWins | NAPS2.Sdk/Ocr/OcrManager.cs:82-85 | with OCR forced on and a non-blank app language, the app's language and mode are used |
| Ocr.UserSettingWins | NAPS2.Sdk/Ocr/OcrManager.cs:86-90 | with no app override, OCR enabled by the user and a non-blank user language, the user's language and mode are used |
| GdiImages.Tag | NAPS2.Images.Gdi/GdiImageContext.cs:33-36 | a specified format becomes the original file format; Unspecified leaves the image unchanged |
| GdiImages.LoadBitmap | NAPS2.Images.Gdi/GdiImageContext.cs:67-81 | a decodable file loads; otherwise file-not-found exactly when the file does not exist, and a read error exactly when it does |
| GdiImages.LoadFromPath | NAPS2.Images.Gdi/GdiImageContext.cs:29-38 | loads the decoded bitmap; a specified format from the extension becomes the original file format, and Unspecified keeps what the GdiImage constructor recorded; a failure is LoadBitmap's error |
| GdiImages.LoadFromStream | NAPS2.Images.Gdi/GdiImageContext.cs:40-49 | loads the decoded bitmap; a specified format sniffed from the first bytes becomes the original file format, and Unspecified keeps what the GdiImage constructor recorded; an undecodable stream fails as an invalid image |
| GdiImages.Bitmap.constructor | NAPS2.Images.Gdi/GdiImageContext.cs:54 | a new bitmap holds the decoded frames, format, palette and the format a GdiImage of it records, with frame 0 active |
| GdiImages.Bitmap.SelectActiveFrame | NAPS2.Images.Gdi/GdiImageContext.cs:89 | makes frame i active and keeps the palette |
| GdiImages.Bitmap.GetPalette | NAPS2.Images.Gdi/GdiImageContext.cs:112 | returns a fresh copy of the palette entries |
| GdiImages.Bitmap.SetPalette | NAPS2.Images.Gdi/GdiImageContext.cs:115 | the palette becomes the edited entries |
| GdiImages.Bitmap.Dispose | NAPS2.Images.Gdi/GdiImageContext.cs:85 | disposes the bitmap and changes nothing else |
| GdiImages.EnumerateFrames | NAPS2.Images.Gdi/GdiImageContext.cs:83-98 | exactly count images; image i is a clone of frame i tagged with the format; the source bitmap ends disposed |
| GdiImages.LoadFramesFromPath | NAPS2.Images.Gdi/GdiImageContext.cs:59-65 | the count is the bitmap's frame count, and there is one tagged image per frame; a load failure gives LoadBitmap's error |
| GdiImages.LoadFramesFromStream | NAPS2.Images.Gdi/GdiImageContext.cs:51-57 | the count is the bitmap's frame count, and there is one tagged image per frame; an undecodable stream fails |
| GdiImages.FrameImagesCarryFormat | NAPS2.Images.Gdi/GdiImageContext.cs:87-94 | each enumerated frame image holds only its own frame; it carries the detected format when one was detected, and the constructor's recorded format otherwise |
| GdiImages.Create | NAPS2.Images.Gdi/GdiImageContext.cs:107-127 | one blank frame of the given size and format; BW1 gets the palette [black, white]; Gray8 gets 256 gray entries (i, i, i); other formats keep the system palette; Create sets no original file format of its own |
| GdiImages.PerformTransform | NAPS2.Images.Gdi/GdiImageContext.cs:23-27 | a GDI image is transformed; any other image fails with the argument error |
| Preview.IndexOf | NAPS2.Lib/EtoForms/Ui/PreviewForm.cs:136 | -1 exactly when the image is absent; otherwise the first position holding it |
| Preview.Without | NAPS2.Lib/EtoForms/Ui/PreviewForm.cs:311 | deleting removes the image and keeps every other image (their order: WithoutDistinctAt) |
| Preview.NextIndexAfterDelete | NAPS2.Lib/EtoForms/Ui/PreviewForm.cs:320 | a valid index: the old index while it is still in range, the last image otherwise |
| Preview.UiImageList.constructor | NAPS2.Lib/EtoForms/Ui/PreviewForm.cs:22 | the list holds the given images, with nothing selected |
| Preview.UiImageList.UpdateSelection | NAPS2.Lib/EtoForms/Ui/PreviewForm.cs:231 | the selection is replaced, and the images are untouched |
| Preview.UiImageList.Delete | NAPS2.Lib/EtoForms/Ui/PreviewForm.cs:311 | the selected image is deleted from the list |
| Preview.PreviewForm.constructor | NAPS2.Lib/EtoForms/Ui/PreviewForm.cs:19-22 | the form starts open, with no current image |
| Preview.PreviewForm.CurrentImage | NAPS2.Lib/EtoForms/Ui/PreviewForm.cs:114 | the current image, or an invalid-operation error when none is set |
| Preview.PreviewForm.ImageIndex | NAPS2.Lib/EtoForms/Ui/PreviewForm.cs:132-143 | the first position of the current image, 0 when it is not in the list, and an error when there is no current image |
| Preview.PreviewForm.SetCurrentImage | NAPS2.Lib/EtoForms/Ui/PreviewForm.cs:115-124 | the image becomes current |
| Preview.PreviewForm.GoTo | NAPS2.Lib/EtoForms/Ui/PreviewForm.cs:222-235 | nothing changes for the current index or one out of range; otherwise that image becomes current and the only one selected, and its index is the one asked for when the list has no repeats |
| Preview.PreviewForm.GoToPrevious | NAPS2.Lib/EtoForms/Ui/PreviewForm.cs:29 | moves to the image before the current one and selects it alone; at index 0, or with no current image, nothing changes |
| Preview.PreviewForm.GoToNext | NAPS2.Lib/EtoForms/Ui/PreviewForm.cs:34 | moves to the image after the current one and selects it alone; at the last image, or with no current image, nothing changes |
| Preview.PreviewForm.OnKeyDown | NAPS2.Lib/EtoForms/Ui/PreviewForm.cs:342-366 | without modifiers, Escape closes; PageDown/Right/Down move to the next image and PageUp/Left/Up to the previous one, exactly as GoToNext and GoToPrevious do; modified and other keys change nothing here |
| Preview.PreviewForm.DeleteCurrentImage | NAPS2.Lib/EtoForms/Ui/PreviewForm.cs:302-340 | after a confirmed delete the image is gone (in a list without repeats, exactly that entry is removed and the others keep their order); the image at the old index, or the last one, becomes current and selected; with no image left, the selection is cleared and the form closes |
| Preview.IndexOfDistinct | NAPS2.Lib/EtoForms/Ui/PreviewForm.cs:136 | in a list without repeats, the image at position i has index i |
| Preview.WithoutDistinctLength | NAPS2.Lib/EtoForms/Ui/PreviewForm.cs:311 | deleting a present image from a list without repeats removes exactly one entry |
| Preview.WithoutDistinctAt | NAPS2.Lib/EtoForms/Ui/PreviewForm.cs:311-321 | in a list without repeats, deleting the image at position i leaves the images before and after it in order, so the old index now names the image that followed |
| Preview.WithoutAbsent | NAPS2.Lib/EtoForms/Ui/PreviewForm.cs:311 | deleting an absent image changes nothing |
| Dialogs.GetDir | NAPS2.Sdk/WinForms/DialogHelper.cs:117-122 | the directory name of a rooted path, "" otherwise |
| Dialogs.NewSaveDialog | NAPS2.Sdk/WinForms/DialogHelper.cs:22-36 | no overwrite prompt, extension added, the given filters, the default file name and GetDir's directory, with filter 1 selected |
| Dialogs.Show | NAPS2.Sdk/WinForms/DialogHelper.cs:37-43 | true with the chosen file name on OK; false with a null path on cancel |
| Dialogs.PromptToSavePdfOrImage | NAPS2.Sdk/WinForms/DialogHelper.cs:20-44 | the PDF and image filters; true with the file name on OK, false with null on cancel |
| Dialogs.PromptToSavePdf | NAPS2.Sdk/WinForms/DialogHelper.cs:46-63 | the PDF filter only; true with the file name on OK, false with null on cancel |
| Dialogs.ToLowerAscii | NAPS2.Sdk/WinForms/DialogHelper.cs:81 | the lower-cased extension, character by character |
| Dialogs.RemoveDots | NAPS2.Sdk/WinForms/DialogHelper.cs:109 | no dot remains; every other character is kept as often as it occurred; a dot-free string is unchanged |
| Dialogs.RemoveDotsAppend | NAPS2.Sdk/WinForms/DialogHelper.cs:109 | removing dots from a concatenation removes them from each part, so the kept characters stay in order |
| Dialogs.RemoveDotsExamples | NAPS2.Sdk/WinForms/DialogHelper.cs:109 | "a.b" becomes "ab" and ".png" becomes "png" |
| Dialogs.FilterIndexFor | NAPS2.Sdk/WinForms/DialogHelper.cs:81-105 | the preselected filter index lies in 1..7 |
| Dialogs.FilterIndexNamesEntry | NAPS2.Sdk/WinForms/DialogHelper.cs:71-104 | the preselected entry lists the last extension, ignoring case and reading null as ""; an extension no entry lists selects the JPEG entry |
| Dialogs.ImageFilterExtensionsDisjoint | NAPS2.Sdk/WinForms/DialogHelper.cs:71-77 | no two image filter entries list the same extension |
| Dialogs.UserConfig.constructor | NAPS2.Sdk/WinForms/DialogHelper.cs:81 | the configuration holds the given last extension, with nothing saved yet |
| Dialogs.PromptToSaveImage | NAPS2.Sdk/WinForms/DialogHelper.cs:65-115 | the image filters with the entry for the last extension preselected; on OK the path is returned, the extension without dots is stored and the configuration is saved once; on cancel it returns null and nothing changes |
| Dialogs.SavedExtensionPreselected | NAPS2.Sdk/WinForms/DialogHelper.cs:81-111 | saving as name.EXT, where EXT in any case is listed by an image entry, makes the next image prompt preselect that entry |

## Left out

- Laziness of the page sequences. `Render` and `EnumerateFrames` are iterators. The model produces the whole sequence at once, so consuming only part of it, and releasing resources when it is abandoned early, are not modelled.
- Concurrency. The Pdfium lock is a depth counter and the worker pool is a log of jobs. Thread interleavings, worker processes, crash replacement and inter-process communication are not modelled.
- Pixel transfer in `RenderPageToNewImage` (PdfiumPdfRenderer.cs:93-108). `PixelInfo`, `PdfBitmap.FillRect`, `RenderPage` and `CopyBitwiseImageOp` are native or not part of this model. The rendered image records only its page, size, pixel format and resolution.
- Embedded-image extraction (`PdfiumImageExtractor.GetSingleImage`) is not part of this model. Its answer is a field of each page.
- Document parsing and passwords in `PdfDocument.Load`. The parse outcome, including a wrong password, is an input with an error code.
- PdfiumRenderer.ResolveLayout: computes with exact reals and an exact half-to-even `Round`. Double-precision rounding and the overflow of the `(int)` casts for huge requests are not modelled. Page sizes must be positive, which the code does not check.
- GdiImages.NewGdiImage: the `GdiImage` constructor (GdiImage.cs) is not part of this model. The original file format it records for a bitmap is an input (`BitmapData.initialFormat`), and `Bitmap.Clone` is taken to keep it. `Tag`, `LoadFromPath`, `LoadFromStream`, `FrameImagesCarryFormat` and `Create` promise only what the code around the constructor does: a specified detected format overrides it, and Unspecified leaves it as the constructor set it.
- GdiImages.Create: the GDI+ failure for a non-positive size or out of memory is not modelled. The initial palette GDI+ gives a new bitmap is an input.
- `GetFileFormatFromExtension` and `GetFileFormatFromFirstBytes` live in the base ImageContext, which is not part of this model. The format they detect is an input.
- The GDI+ decoder is not modelled. Its outcome is an input, and a frame's pixels are an opaque byte sequence. A stream the decoder rejects is reported as an invalid image.
- `GdiImageTransformer` is not part of this model, and neither are `RenderToBitmap` or the TIFF writer. A transform is an opaque function.
- Ocr.StrLess: `OrderBy(x => x.Name)` compares with the current culture. The model uses ordinal order on characters.
- Ocr.IsWhiteSpace: covers the characters `char.IsWhiteSpace` accepts, taken one UTF-16 unit at a time.
- Dialogs.ToLowerAscii: `ToLowerInvariant` is modelled on the ASCII letters only. Other letters are left as they are.
- `Path.GetFileName`, `Path.GetExtension`, `Path.IsPathRooted`, `Path.GetDirectoryName` and `File.Exists` are inputs, as are showing the `SaveFileDialog` and the `MessageBox` confirmation.
- `UserConfig.Manager.Save()` is counted, and persistence itself is not modelled.
- `DialogHelper.ShowErrorWithDetails` only shows a form. It is not modelled.
- Preview.PreviewForm.OnKeyDown: keys passed to the keyboard-shortcut manager (PreviewForm.cs:365) change nothing in the model. The shortcut manager is not part of this model.
- Preview.UiImageList.Delete: `DeleteSelected` deletes the selection of the command set bound to the current image. The model deletes the current image.
- The preview form's rendering, zoom, toolbar, page text box and thumbnail events are not modelled, and neither is the `await` of the image update.
