/**
 * The browser values the grid code handles without looking inside them:
 * a File (name, MIME type and object identity), an opaque Blob, and the
 * intrinsic size of a decoded image.
 */
module Platform {

  /** A File object; `handle` stands for its identity, which the WeakMap cache keys on. */
  datatype FileInfo = FileInfo(handle: nat, name: string, mimeType: string)

  /** An opaque binary blob: an encoded grid, a converted HEIC image or a ZIP archive. */
  datatype Blob = Blob(handle: nat)

  /** The intrinsic width and height of a decoded image. */
  datatype ImageSize = ImageSize(width: int, height: int)
}
