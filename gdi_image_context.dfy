/**
 * GdiImageContext: loading images through GDI+, tagging them with the file
 * format that was detected, enumerating the page frames of a multi-frame
 * file, turning GDI+'s opaque load failure into FileNotFound or IO errors,
 * and giving newly created 1-bit and 8-bit images their palettes.
 *
 * A GDI+ Bitmap is modelled as its frames plus a palette. Decoding, format
 * detection and file-existence checks are inputs.
 */
module GdiImages {
  import opened Wrappers
  import opened Images

  datatype Color = Color(a: int, r: int, g: int, b: int)

  const Black: Color := Color(255, 0, 0, 0)
  const White: Color := Color(255, 255, 255, 255)

  /** Color.FromArgb(r, g, b): fully opaque. */
  function FromRgb(r: int, g: int, b: int): Color { Color(255, r, g, b) }

  /** The contents of one page frame, as GDI+ decoded or created it. */
  datatype FrameContent = Blank | Decoded(bytes: seq<byte>)

  datatype Frame = Frame(width: int, height: int, content: FrameContent)

  /**
   * A Bitmap's value: its page frames, pixel format and palette, and the
   * OriginalFileFormat the GdiImage constructor records for it. That
   * constructor (GdiImage.cs) is not part of this model, so the recorded
   * format is an input and may be any format, Unspecified included.
   */
  datatype BitmapData = BitmapData(frames: seq<Frame>, pixelFormat: ImagePixelFormat, palette: seq<Color>,
                                   initialFormat: ImageFileFormat)

  /** GdiImage: a bitmap and the format it was loaded from (Unspecified when unknown). */
  datatype GdiImage = GdiImage(bitmap: BitmapData, originalFileFormat: ImageFileFormat)

  /** `new GdiImage(this, bitmap)`: the constructor's own choice of original format. */
  function NewGdiImage(bitmap: BitmapData): GdiImage { GdiImage(bitmap, bitmap.initialFormat) }

  /** `if (format != Unspecified) image.OriginalFileFormat = format`. */
  function Tag(image: GdiImage, format: ImageFileFormat): (r: GdiImage)
    ensures r.bitmap == image.bitmap
    ensures format != Unspecified ==> r.originalFileFormat == format
    ensures format == Unspecified ==> r == image
  {
    if format != Unspecified then image.(originalFileFormat := format) else image
  }

  datatype LoadError =
    | FileNotFound(path: string)   // FileNotFoundException
    | ReadError(path: string)      // IOException
    | InvalidImage                 // ArgumentException from `new Bitmap(stream)`, not caught

  /**
   * LoadBitmapWithExceptionHandling. `decoded` is what `new Bitmap(path)`
   * produced (None: it threw ArgumentException); `fileExists` is File.Exists(path).
   */
  function LoadBitmap(path: string, decoded: Option<BitmapData>, fileExists: bool): (r: Result<BitmapData, LoadError>)
    ensures r.Success? <==> decoded.Some?
    ensures r.Success? ==> r.value == decoded.value
    ensures r.Failure? ==> (r.error == FileNotFound(path) <==> !fileExists)
    ensures r.Failure? ==> (r.error == ReadError(path) <==> fileExists)
  {
    match decoded
    case Some(b) => Success(b)
    case None => if !fileExists then Failure(FileNotFound(path)) else Failure(ReadError(path))
  }

  /** Load(path): `format` is GetFileFormatFromExtension(path, true). */
  function LoadFromPath(path: string, format: ImageFileFormat, decoded: Option<BitmapData>, fileExists: bool)
    : (r: Result<GdiImage, LoadError>)
    ensures r.Success? <==> decoded.Some?
    ensures r.Failure? ==> r.error == LoadBitmap(path, decoded, fileExists).error
    ensures r.Success? ==> r.value.bitmap == decoded.value
    ensures r.Success? && format != Unspecified ==> r.value.originalFileFormat == format
    ensures r.Success? && format == Unspecified ==> r.value.originalFileFormat == decoded.value.initialFormat
  {
    match LoadBitmap(path, decoded, fileExists)
    case Failure(e) => Failure(e)
    case Success(b) => Success(Tag(NewGdiImage(b), format))
  }

  /** Load(stream): `format` is GetFileFormatFromFirstBytes(stream); a bad stream's ArgumentException escapes. */
  function LoadFromStream(format: ImageFileFormat, decoded: Option<BitmapData>): (r: Result<GdiImage, LoadError>)
    ensures r.Success? <==> decoded.Some?
    ensures r.Failure? ==> r.error == InvalidImage
    ensures r.Success? ==> r.value.bitmap == decoded.value
    ensures r.Success? && format != Unspecified ==> r.value.originalFileFormat == format
    ensures r.Success? && format == Unspecified ==> r.value.originalFileFormat == decoded.value.initialFormat
  {
    match decoded
    case None => Failure(InvalidImage)
    case Some(b) => Success(Tag(NewGdiImage(b), format))
  }

  /** The image EnumerateFrames yields for frame i: a clone of that frame alone, tagged with the format. */
  function FrameImage(data: BitmapData, i: nat, format: ImageFileFormat): GdiImage
    requires i < |data.frames|
  {
    Tag(NewGdiImage(BitmapData([data.frames[i]], data.pixelFormat, data.palette, data.initialFormat)), format)
  }

  /** A GDI+ Bitmap object: its frames, which one is active, its palette, and whether it was disposed. */
  class Bitmap {
    const frames: seq<Frame>
    const pixelFormat: ImagePixelFormat
    const initialFormat: ImageFileFormat
    var palette: seq<Color>
    var activeFrame: nat
    var disposed: bool

    constructor (data: BitmapData)
      ensures frames == data.frames && pixelFormat == data.pixelFormat && palette == data.palette
      ensures initialFormat == data.initialFormat && activeFrame == 0 && !disposed
    {
      frames, pixelFormat, palette, initialFormat := data.frames, data.pixelFormat, data.palette, data.initialFormat;
      activeFrame, disposed := 0, false;
    }

    /** GetFrameCount(FrameDimension.Page) */
    function FrameCount(): nat { |frames| }

    function Data(): BitmapData reads this { BitmapData(frames, pixelFormat, palette, initialFormat) }

    /** SelectActiveFrame(FrameDimension.Page, i) */
    method SelectActiveFrame(i: nat)
      requires i < |frames| && !disposed
      modifies this
      ensures activeFrame == i && palette == old(palette) && disposed == old(disposed)
    {
      activeFrame := i;
    }

    /** Clone(): a new single-frame bitmap holding the active frame (the recorded format is carried over). */
    function Clone(): BitmapData
      reads this
      requires activeFrame < |frames|
    {
      BitmapData([frames[activeFrame]], pixelFormat, palette, initialFormat)
    }

    /** The Palette getter: a fresh copy the caller may edit. */
    method GetPalette() returns (p: array<Color>)
      ensures fresh(p) && p[..] == palette
    {
      p := new Color[|palette|](i requires 0 <= i < |palette| reads this => palette[i]);
    }

    /** The Palette setter: copies the edited entries back. */
    method SetPalette(p: array<Color>)
      modifies this
      ensures palette == p[..] && activeFrame == old(activeFrame) && disposed == old(disposed)
    {
      palette := p[..];
    }

    method Dispose()
      modifies this
      ensures disposed && palette == old(palette) && activeFrame == old(activeFrame)
    {
      disposed := true;
    }
  }

  /**
   * EnumerateFrames: for i in 0..count, select frame i, clone it and tag the
   * clone; the bitmap is disposed afterwards (`using (bitmap)`).
   */
  method EnumerateFrames(bitmap: Bitmap, format: ImageFileFormat, count: nat) returns (images: seq<GdiImage>)
    requires count == bitmap.FrameCount() && !bitmap.disposed
    modifies bitmap
    ensures |images| == count
    ensures forall i :: 0 <= i < count ==> images[i] == FrameImage(old(bitmap.Data()), i, format)
    ensures bitmap.disposed && bitmap.palette == old(bitmap.palette)
  {
    images := [];
    var i := 0;
    while i < count
      invariant 0 <= i <= count
      invariant !bitmap.disposed && bitmap.palette == old(bitmap.palette)
      invariant |images| == i
      invariant forall k :: 0 <= k < i ==> images[k] == FrameImage(old(bitmap.Data()), k, format)
    {
      bitmap.SelectActiveFrame(i);
      var image := Tag(NewGdiImage(bitmap.Clone()), format);
      images := images + [image];
      i := i + 1;
    }
    bitmap.Dispose();
  }

  datatype Frames = Frames(count: nat, images: seq<GdiImage>)

  /** LoadFrames(path, out count): `format` is GetFileFormatFromExtension(path). */
  method LoadFramesFromPath(path: string, format: ImageFileFormat, decoded: Option<BitmapData>, fileExists: bool)
    returns (r: Result<Frames, LoadError>)
    ensures r.Success? <==> decoded.Some?
    ensures r.Failure? ==> r.error == LoadBitmap(path, decoded, fileExists).error
    ensures r.Success? ==> r.value.count == |decoded.value.frames| && |r.value.images| == r.value.count
    ensures r.Success? ==> forall i :: 0 <= i < r.value.count ==>
                             r.value.images[i] == FrameImage(decoded.value, i, format)
  {
    var loaded := LoadBitmap(path, decoded, fileExists);
    if loaded.Failure? {
      return Failure(loaded.error);
    }
    var bitmap := new Bitmap(loaded.value);
    var count := bitmap.FrameCount();
    var images := EnumerateFrames(bitmap, format, count);
    r := Success(Frames(count, images));
  }

  /** LoadFrames(stream, out count): `format` is GetFileFormatFromFirstBytes(stream). */
  method LoadFramesFromStream(format: ImageFileFormat, decoded: Option<BitmapData>)
    returns (r: Result<Frames, LoadError>)
    ensures r.Success? <==> decoded.Some?
    ensures r.Failure? ==> r.error == InvalidImage
    ensures r.Success? ==> r.value.count == |decoded.value.frames| && |r.value.images| == r.value.count
    ensures r.Success? ==> forall i :: 0 <= i < r.value.count ==>
                             r.value.images[i] == FrameImage(decoded.value, i, format)
  {
    if decoded.None? {
      return Failure(InvalidImage);
    }
    var bitmap := new Bitmap(decoded.value);
    var count := bitmap.FrameCount();
    var images := EnumerateFrames(bitmap, format, count);
    r := Success(Frames(count, images));
  }

  /** Every frame image carries the detected format, or the constructor's when none was detected. */
  lemma FrameImagesCarryFormat(data: BitmapData, format: ImageFileFormat, i: nat)
    requires i < |data.frames|
    ensures format != Unspecified ==> FrameImage(data, i, format).originalFileFormat == format
    ensures format == Unspecified ==> FrameImage(data, i, format).originalFileFormat == data.initialFormat
    ensures FrameImage(data, i, format).bitmap.frames == [data.frames[i]]
  {
  }

  /** How many palette entries GDI+ gives a new bitmap of each pixel format. */
  function PaletteSize(format: ImagePixelFormat): nat {
    match format
    case BW1 => 2
    case Gray8 => 256
    case _ => 0
  }

  /**
   * Create(width, height, pixelFormat). `systemPalette` is the palette GDI+
   * gives the new bitmap; BW1 gets black then white, Gray8 the 256 grey
   * levels, other formats keep what GDI+ gave. `initialFormat` is what the
   * GdiImage constructor records; Create sets no format of its own.
   */
  method Create(width: int, height: int, pixelFormat: ImagePixelFormat, systemPalette: seq<Color>,
                initialFormat: ImageFileFormat)
    returns (image: GdiImage)
    requires |systemPalette| == PaletteSize(pixelFormat)
    ensures image.originalFileFormat == initialFormat
    ensures image.bitmap.frames == [Frame(width, height, Blank)] && image.bitmap.pixelFormat == pixelFormat
    ensures pixelFormat == BW1 ==> image.bitmap.palette == [Black, White]
    ensures pixelFormat == Gray8 ==> |image.bitmap.palette| == 256
    ensures pixelFormat == Gray8 ==> forall i :: 0 <= i < 256 ==> image.bitmap.palette[i] == FromRgb(i, i, i)
    ensures pixelFormat != BW1 && pixelFormat != Gray8 ==> image.bitmap.palette == systemPalette
  {
    var bitmap := new Bitmap(BitmapData([Frame(width, height, Blank)], pixelFormat, systemPalette, initialFormat));
    if pixelFormat == BW1 {
      var p := bitmap.GetPalette();
      p[0] := Black;
      p[1] := White;
      bitmap.SetPalette(p);
      assert bitmap.palette == [Black, White];
    }
    if pixelFormat == Gray8 {
      var p := bitmap.GetPalette();
      var i := 0;
      while i < 256
        invariant 0 <= i <= 256
        invariant forall k :: 0 <= k < i ==> p[k] == FromRgb(k, k, k)
      {
        p[i] := FromRgb(i, i, i);
        i := i + 1;
      }
      bitmap.SetPalette(p);
    }
    image := NewGdiImage(bitmap.Data());
  }

  /** An image of any context: PerformTransform only accepts GDI images. */
  datatype AnyImage = Gdi(image: GdiImage) | Foreign(typeName: string)

  datatype TransformError = NotGdiImage   // ArgumentException("Expected GdiImage object")

  /** PerformTransform: the transformer itself (`apply`) is not part of this model. */
  function PerformTransform<T>(image: AnyImage, transform: T, apply: (GdiImage, T) -> GdiImage)
    : (r: Result<GdiImage, TransformError>)
    ensures r.Success? <==> image.Gdi?
    ensures r.Failure? ==> r.error == NotGdiImage
    ensures r.Success? ==> r.value == apply(image.image, transform)
  {
    match image
    case Foreign(_) => Failure(NotGdiImage)
    case Gdi(g) => Success(apply(g, transform))
  }
}
