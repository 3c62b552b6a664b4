/**
 * File classification and HEIC handling of src/utils/image.ts: the MIME and
 * file-name predicates, the module-level conversion cache with its lazily
 * loaded converter, and the order in which fileToImage tries the cache, a
 * raw decode and a conversion. The decoder and the converter are oracles.
 */
module ImageFiles {
  import opened Wrappers
  import opened JsBuiltins
  import opened Platform
  import opened Errors

  // ---------------------------------------------------------------- classification

  /** KNOWN_IMAGE_EXTENSIONS, in the source's order. */
  const KnownImageExtensions: seq<string> :=
    [".avif", ".bmp", ".gif", ".heic", ".heif", ".jpeg", ".jpg", ".png", ".tif", ".tiff", ".webp"]

  /** isHeicFile: the lower-cased MIME mentions heic or heif, or the lower-cased name ends in .heic or .heif. */
  predicate IsHeicFile(file: FileInfo) {
    var mime := ToLower(file.mimeType);
    var name := ToLower(file.name);
    Includes(mime, "heic") || Includes(mime, "heif") || EndsWith(name, ".heic") || EndsWith(name, ".heif")
  }

  /** inferHeicMime: image/heif for a .heif name (any case), image/heic for everything else. */
  function InferHeicMime(file: FileInfo): (mime: string)
    ensures mime == "image/heif" <==> EndsWith(ToLower(file.name), ".heif")
    ensures mime == "image/heif" || mime == "image/heic"
  {
    if EndsWith(ToLower(file.name), ".heif") then "image/heif" else "image/heic"
  }

  /** `exts.some(ext => name.endsWith(ext))`. */
  function EndsWithAny(name: string, exts: seq<string>): (b: bool)
    ensures b <==> exists i :: 0 <= i < |exts| && EndsWith(name, exts[i])
  {
    if exts == [] then false
    else if EndsWith(name, exts[0]) then true
    else
      var b := EndsWithAny(name, exts[1..]);
      assert forall i :: 1 <= i < |exts| ==> exts[i] == exts[1..][i - 1];
      b
  }

  /** isSupportedImageFile: an image/ MIME (any case), or a name ending in a known extension. */
  predicate IsSupportedImageFile(file: FileInfo) {
    StartsWith(ToLower(file.mimeType), "image/") || EndsWithAny(ToLower(file.name), KnownImageExtensions)
  }

  /** A MIME type that reads image/ once lower-cased makes a file supported, whatever its name. */
  lemma ImageMimeSupported(file: FileInfo)
    requires StartsWith(ToLower(file.mimeType), "image/")
    ensures IsSupportedImageFile(file)
  {
  }

  /** Without an image MIME type, a file is supported exactly when its name ends in one of the eleven extensions. */
  lemma SupportedByName(file: FileInfo)
    requires !StartsWith(ToLower(file.mimeType), "image/")
    ensures IsSupportedImageFile(file)
            <==> exists i :: 0 <= i < |KnownImageExtensions| && EndsWith(ToLower(file.name), KnownImageExtensions[i])
  {
  }

  /** The same file with its name and MIME type lower-cased. */
  function Lowered(file: FileInfo): FileInfo {
    file.(name := ToLower(file.name), mimeType := ToLower(file.mimeType))
  }

  /** isHeicFile ignores letter case: a file and its lower-cased copy are classified alike. */
  lemma HeicTestIgnoresCase(file: FileInfo)
    ensures IsHeicFile(Lowered(file)) == IsHeicFile(file)
  {
    ToLowerIdempotent(file.name);
    ToLowerIdempotent(file.mimeType);
  }

  /** isSupportedImageFile ignores letter case in the same way. */
  lemma SupportedTestIgnoresCase(file: FileInfo)
    ensures IsSupportedImageFile(Lowered(file)) == IsSupportedImageFile(file)
  {
    ToLowerIdempotent(file.name);
    ToLowerIdempotent(file.mimeType);
  }

  /** A file named *.heic or *.heif, in any case, is both HEIC and supported. */
  lemma HeicNameIsSupported(file: FileInfo)
    requires EndsWith(ToLower(file.name), ".heic") || EndsWith(ToLower(file.name), ".heif")
    ensures IsHeicFile(file) && IsSupportedImageFile(file)
  {
    var name := ToLower(file.name);
    if EndsWith(name, ".heic") {
      assert KnownImageExtensions[3] == ".heic";
    } else {
      assert KnownImageExtensions[4] == ".heif";
    }
  }

  // ---------------------------------------------------------------- conversion

  /** What is handed to the converter: the file itself when its type mentions "hei", else a copy relabelled with the inferred type. */
  datatype ConvertInput = OriginalFile(file: FileInfo) | Relabelled(file: FileInfo, mime: string)

  function ConvertInputFor(file: FileInfo): (input: ConvertInput)
    ensures input.file == file
    ensures input.OriginalFile? <==> file.mimeType != "" && Includes(ToLower(file.mimeType), "hei")
  {
    if file.mimeType != "" && Includes(ToLower(file.mimeType), "hei") then OriginalFile(file)
    else Relabelled(file, InferHeicMime(file))
  }

  /** heic2any's result: one blob, or an array of blobs of which the first is kept. */
  datatype Converted = Single(blob: Blob) | Many(blobs: seq<Blob>)

  /** The blob kept from a conversion; an empty array yields undefined, stored and returned as it is. */
  function Normalized(c: Converted): (b: Option<Blob>)
    ensures c.Single? ==> b == Some(c.blob)
    ensures c.Many? ==> (b.None? <==> c.blobs == [])
  {
    match c
    case Single(blob) => Some(blob)
    case Many(blobs) => if blobs == [] then None else Some(blobs[0])
  }

  /** The state of the lazily imported converter module. */
  datatype Loader = NotRequested | Loaded | LoadFailed(error: Thrown)

  /** The converter module after a request: a pending import settles with importError (None on success). */
  function LoaderAfterRequest(loader: Loader, importError: Option<Thrown>): (next: Loader)
    ensures !loader.NotRequested? ==> next == loader
    ensures loader.NotRequested? ==> (next.Loaded? <==> importError.None?)
    ensures loader.NotRequested? && importError.Some? ==> next == LoadFailed(importError.value)
  {
    if !loader.NotRequested? then loader
    else if importError.None? then Loaded
    else LoadFailed(importError.value)
  }

  /** A cache hit: the WeakMap holds a blob for the file (undefined counts as a miss). */
  predicate CacheHit(cache: map<FileInfo, Option<Blob>>, file: FileInfo) {
    file in cache && cache[file].Some?
  }

  /** What decodeBlobToImage is given: the raw file or a converted blob. */
  datatype DecodeSource = RawFile(file: FileInfo) | ConvertedBlob(blob: Blob)

  /**
   * decodeBlobToImage applied to a kept conversion. An undefined blob never
   * reaches the decoder: URL.createObjectURL(undefined) throws first, and
   * urlError is that TypeError.
   */
  function DecodeKept(kept: Option<Blob>, decode: DecodeSource -> Result<ImageSize, Thrown>, urlError: Thrown)
    : (r: Result<ImageSize, Thrown>)
    ensures kept.None? ==> r == Failure(urlError)
    ensures kept.Some? ==> r == decode(ConvertedBlob(kept.value))
  {
    match kept
    case Some(blob) => decode(ConvertedBlob(blob))
    case None => Failure(urlError)
  }

  /**
   * The conversion cache and the converter module, which src/utils/image.ts
   * keeps at module level and updates in place.
   */
  class HeicConversions {
    var cache: map<FileInfo, Option<Blob>>
    var loader: Loader
    /** How many times the converter has been called; bookkeeping for the proofs only. */
    ghost var conversions: nat

    constructor ()
      ensures cache == map[] && loader == NotRequested && conversions == 0
    {
      cache := map[];
      loader := NotRequested;
      conversions := 0;
    }

    /**
     * convertHeicToJpeg: a cached blob is returned without touching the
     * converter; otherwise the converter module is requested once, the
     * file converted, and the kept blob stored under the file. A failed
     * import or conversion rejects and leaves the cache as it was.
     */
    method ConvertHeicToJpeg(file: FileInfo, importError: Option<Thrown>, convert: ConvertInput -> Result<Converted, Thrown>)
      returns (r: Result<Option<Blob>, Thrown>)
      modifies this
      ensures old(CacheHit(cache, file)) ==> r == Success(old(cache)[file]) && cache == old(cache) && loader == old(loader)
      ensures !old(CacheHit(cache, file)) ==> loader == LoaderAfterRequest(old(loader), importError)
      ensures !old(CacheHit(cache, file)) && loader.LoadFailed? ==> r == Failure(loader.error) && cache == old(cache)
      ensures !old(CacheHit(cache, file)) && loader.Loaded? ==>
        match convert(ConvertInputFor(file))
        case Failure(e) => r == Failure(e) && cache == old(cache)
        case Success(c) => r == Success(Normalized(c)) && cache == old(cache)[file := Normalized(c)]
      ensures conversions == old(conversions) + (if !old(CacheHit(cache, file)) && loader.Loaded? then 1 else 0)
    {
      if CacheHit(cache, file) {
        return Success(cache[file]);
      }
      if loader.NotRequested? {
        loader := if importError.None? then Loaded else LoadFailed(importError.value);
      }
      if loader.LoadFailed? {
        return Failure(loader.error);
      }
      var outcome := convert(ConvertInputFor(file));
      conversions := conversions + 1;
      if outcome.Failure? {
        return Failure(outcome.error);
      }
      var kept := Normalized(outcome.value);
      cache := cache[file := kept];
      r := Success(kept);
    }

    /**
     * fileToImage: a cached conversion is decoded first; otherwise the raw
     * file is decoded, a failure is rethrown unchanged for a non-HEIC file,
     * and only a HEIC file whose raw decode failed is converted and the
     * conversion decoded.
     */
    method FileToImage(file: FileInfo, decode: DecodeSource -> Result<ImageSize, Thrown>, urlError: Thrown,
                       importError: Option<Thrown>, convert: ConvertInput -> Result<Converted, Thrown>)
      returns (r: Result<ImageSize, Thrown>)
      modifies this
      ensures old(CacheHit(cache, file)) ==>
        r == decode(ConvertedBlob(old(cache)[file].value)) && cache == old(cache) && loader == old(loader)
      ensures !old(CacheHit(cache, file)) && decode(RawFile(file)).Success? ==>
        r == decode(RawFile(file)) && cache == old(cache) && loader == old(loader)
      ensures !old(CacheHit(cache, file)) && decode(RawFile(file)).Failure? && !IsHeicFile(file) ==>
        r == decode(RawFile(file)) && cache == old(cache) && loader == old(loader)
      ensures !old(CacheHit(cache, file)) && decode(RawFile(file)).Failure? && IsHeicFile(file) ==>
        loader == LoaderAfterRequest(old(loader), importError)
        && (loader.LoadFailed? ==> r == Failure(loader.error) && cache == old(cache))
        && (loader.Loaded? ==>
              match convert(ConvertInputFor(file))
              case Failure(e) => r == Failure(e) && cache == old(cache)
              case Success(c) =>
                r == DecodeKept(Normalized(c), decode, urlError) && cache == old(cache)[file := Normalized(c)]
                && (Normalized(c).None? ==> r == Failure(urlError)))
      ensures conversions == old(conversions) +
        (if !old(CacheHit(cache, file)) && decode(RawFile(file)).Failure? && IsHeicFile(file) && loader.Loaded? then 1 else 0)
    {
      if CacheHit(cache, file) {
        return decode(ConvertedBlob(cache[file].value));
      }
      var raw := decode(RawFile(file));
      if raw.Success? {
        return raw;
      }
      if !IsHeicFile(file) {
        return raw;
      }
      var converted := ConvertHeicToJpeg(file, importError, convert);
      if converted.Failure? {
        return Failure(converted.error);
      }
      r := DecodeKept(converted.value, decode, urlError);
    }

    /**
     * The cache as fileToImage relies on it: after a conversion that kept a
     * blob, loading the same file again decodes that blob and does not call
     * the converter a second time.
     */
    method ReloadUsesCache(file: FileInfo, decode: DecodeSource -> Result<ImageSize, Thrown>, urlError: Thrown,
                           importError: Option<Thrown>, convert: ConvertInput -> Result<Converted, Thrown>)
      returns (first: Result<ImageSize, Thrown>, second: Result<ImageSize, Thrown>)
      modifies this
      requires !CacheHit(cache, file) && decode(RawFile(file)).Failure? && IsHeicFile(file)
      ensures LoaderAfterRequest(old(loader), importError).Loaded? && convert(ConvertInputFor(file)).Success?
              && Normalized(convert(ConvertInputFor(file)).value).Some? ==>
        var b := Normalized(convert(ConvertInputFor(file)).value).value;
        first == decode(ConvertedBlob(b)) && second == decode(ConvertedBlob(b))
        && cache == old(cache)[file := Some(b)] && conversions == old(conversions) + 1
    {
      first := FileToImage(file, decode, urlError, importError, convert);
      second := FileToImage(file, decode, urlError, importError, convert);
    }

    /**
     * An empty conversion result is stored as undefined, which the cache
     * treats as a miss: loading the same HEIC file again, when its raw
     * decode still fails, calls the converter again.
     */
    method ReloadAfterEmptyConverts(file: FileInfo, decode: DecodeSource -> Result<ImageSize, Thrown>, urlError: Thrown,
                                    importError: Option<Thrown>, convert: ConvertInput -> Result<Converted, Thrown>)
      returns (first: Result<ImageSize, Thrown>, second: Result<ImageSize, Thrown>)
      modifies this
      requires !CacheHit(cache, file) && decode(RawFile(file)).Failure? && IsHeicFile(file)
      ensures LoaderAfterRequest(old(loader), importError).Loaded? && convert(ConvertInputFor(file)).Success?
              && Normalized(convert(ConvertInputFor(file)).value).None? ==>
        first == Failure(urlError) && second == Failure(urlError)
        && cache == old(cache)[file := None] && conversions == old(conversions) + 2
    {
      first := FileToImage(file, decode, urlError, importError, convert);
      second := FileToImage(file, decode, urlError, importError, convert);
    }
  }
}
