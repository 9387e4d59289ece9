/** Vocabulary shared by the image-handling modules. */
module Images {

  newtype byte = x: int | 0 <= x < 256

  /** ImageFileFormat: the format an image was decoded from, if it is known. */
  datatype ImageFileFormat = Unspecified | Bmp | Emf | Exif | Gif | Jpeg | Png | Tiff

  /** ImagePixelFormat: the pixel layouts an image context can create. */
  datatype ImagePixelFormat = BW1 | Gray8 | RGB24 | ARGB32
}
