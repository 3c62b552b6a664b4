/**
 * The first application component, src/App.tsx, which drives the legacy
 * engine: a plain list of files, the option inputs with their own clamps,
 * downloadAll (always one ZIP, alerts instead of notices) and a preview of
 * the first group.
 */
module LegacyApp {
  import opened Wrappers
  import opened JsBuiltins
  import opened Platform
  import opened Errors
  import opened Options
  import opened Grid
  import opened Batch
  import opened LegacyUtils
  import Preview

  // ---------------------------------------------------------------- errors

  /** String(message): the text of a string property, or what String() renders for any other value. */
  function Rendered(m: MessageValue): string {
    match m
    case TextMessage(t) => t
    case OtherMessage(r) => r
  }

  /**
   * The component's own describeError: like the shared one, except that an
   * object's `message` is turned into a string whatever its type.
   */
  function LegacyDescribeError(err: Thrown): (r: string)
    ensures err.ErrorObject? && err.message != "" ==> r == err.message
    ensures err.ThrownString? ==> r == err.text
    ensures !err.ThrownString? && MessageOf(err).Some? ==> r == Rendered(MessageOf(err).value)
    ensures !err.ThrownString? && MessageOf(err).None? ==> r == FallbackText
  {
    if err.ErrorObject? && err.message != "" then err.message
    else if err.ThrownString? then err.text
    else if MessageOf(err).Some? then Rendered(MessageOf(err).value)
    else FallbackText
  }

  /** The two describeError functions differ only on an object whose message is not a string. */
  lemma DescribeErrorsAgree(err: Thrown)
    ensures !(MessageOf(err).Some? && MessageOf(err).value.OtherMessage?) ==> LegacyDescribeError(err) == DescribeError(err)
    ensures MessageOf(err).Some? && MessageOf(err).value.OtherMessage? ==>
      LegacyDescribeError(err) == MessageOf(err).value.rendered && DescribeError(err) == FallbackText
  {
  }

  // ---------------------------------------------------------------- inputs

  /** The rows and columns inputs: parseInt, with NaN or 0 read as 1, clamped to 1..6. */
  function GridCountInput(text: string): (n: int)
    ensures 1 <= n <= 6
    ensures ParseInt(text).None? ==> n == 1
    ensures ParseInt(text).Some? && 1 <= ParseInt(text).value <= 6 ==> n == ParseInt(text).value
    ensures ParseInt(text).Some? && ParseInt(text).value > 6 ==> n == 6
    ensures ParseInt(text).Some? && ParseInt(text).value <= 0 ==> n == 1
  {
    var parsed := ParseInt(text);
    var v := if parsed.None? || parsed.value == 0 then 1 else parsed.value;
    Max(1, Min(6, v))
  }

  /** A digit string naming 1 to 6 sets exactly that count. */
  lemma GridCountInputReadsBack(n: int)
    requires 1 <= n <= 6
    ensures GridCountInput(IntToString(n)) == n
  {
    ParseIntOfIntToString(n);
  }

  /** The width and height inputs: a finite parsed value, raised to at least 1; otherwise the old value. */
  function SizeInput(parsed: JsNumber, current: real): (cm: real)
    ensures parsed.Finite? ==> cm >= 1.0 && cm == MaxR(1.0, parsed.value)
    ensures parsed.Finite? && parsed.value >= 1.0 ==> cm == parsed.value
    ensures !parsed.Finite? ==> cm == current
  {
    if parsed.Finite? then MaxR(1.0, parsed.value) else current
  }

  /** The DPI input: a parsed integer clamped to 72..1200; NaN keeps the old value. */
  function DpiInput(text: string, current: int): (dpi: int)
    ensures ParseInt(text).Some? ==> 72 <= dpi <= 1200
    ensures ParseInt(text).Some? && 72 <= ParseInt(text).value <= 1200 ==> dpi == ParseInt(text).value
    ensures ParseInt(text).None? ==> dpi == current
  {
    match ParseInt(text)
    case None => current
    case Some(v) => Min(1200, Max(72, v))
  }

  /** The rows and columns inputs land inside the range the newer options configuration allows. */
  lemma GridCountWithinConfig(text: string)
    ensures WithinConfig(Rows, GridCountInput(text) as real) && WithinConfig(Cols, GridCountInput(text) as real)
  {
    var n := GridCountInput(text);
    assert (n as real).Floor == n;
  }

  /** The size inputs keep the centimetres inside the newer configuration's range. */
  lemma SizeWithinConfig(parsed: JsNumber, current: real)
    requires current >= 1.0
    ensures WithinConfig(WidthCm, SizeInput(parsed, current)) && WithinConfig(HeightCm, SizeInput(parsed, current))
  {
  }

  /** The DPI input keeps the DPI inside the newer configuration's range. */
  lemma DpiWithinConfig(text: string, current: int)
    requires 72 <= current <= 1200
    ensures WithinConfig(Dpi, DpiInput(text, current) as real)
  {
    var d := DpiInput(text, current);
    if ParseInt(text).None? {
      assert d == current;
    }
    DpiValueWithinConfig(d);
  }

  /** Any whole DPI in 72..1200 is allowed by the newer configuration. */
  lemma DpiValueWithinConfig(d: int)
    requires 72 <= d <= 1200
    ensures WithinConfig(Dpi, d as real)
  {
    assert (d as real).Floor == d;
  }

  // ---------------------------------------------------------------- groups and download

  /** firstGroup: the first groupSize files, once there are that many. */
  function FirstGroup(files: seq<FileInfo>, size: int): (group: Option<seq<FileInfo>>)
    requires size >= 1
    ensures group.Some? <==> |files| >= size
    ensures group.Some? ==> |group.value| == size && group.value == FullGroups(files, size)[0]
  {
    if |files| >= size then
      FullGroupsCount(files, size);
      assert FullGroups(files, size)[0] == files[..size];
      Some(files[..size])
    else None
  }

  /** The decoded sizes of files that all decode. */
  function ImagesOf(files: seq<FileInfo>, decode: FileInfo -> Result<ImageSize, Thrown>): (images: seq<ImageSize>)
    requires PositiveDecoder(decode) && AllDecodeFiles(files, decode)
    ensures |images| == |files| && PositiveImages(images)
    ensures forall k :: 0 <= k < |files| ==> images[k] == decode(files[k]).value
  {
    seq(|files|, k requires 0 <= k < |files| => decode(files[k]).value)
  }

  predicate AllDecodeFiles(files: seq<FileInfo>, decode: FileInfo -> Result<ImageSize, Thrown>) {
    forall k :: 0 <= k < |files| ==> decode(files[k]).Success?
  }

  /** What downloadAll ends in. */
  datatype LegacyOutcome =
    | Alerted(message: string)                                       // a guard failed, or a group failed to compose
    | DecodeRejected(error: Thrown)                                  // ensureImages rejected; downloadAll rejects
    | ArchiveRejected(error: Thrown)                                 // generating the ZIP rejected; downloadAll rejects
    | Downloaded(name: string, entries: seq<ZipEntry>, archive: Blob)

  function AtLeastAlert(size: int): string {
    "Please add at least " + IntToString(size) + " photos."
  }

  function MissingAlert(missing: int): string {
    "Please add " + IntToString(missing) + " more photo" + Plural(missing) + " to complete the grid."
  }

  /** The composition result of every group, in order. */
  function LegacyGroupResults(groups: seq<seq<FileInfo>>, opts: LegacyOptions, decode: FileInfo -> Result<ImageSize, Thrown>,
                              encode: (DrawPlan, EncodeRequest) -> Option<Blob>): (rs: seq<Result<Option<Blob>, Thrown>>)
    requires ValidShape(opts.base) && PositiveDecoder(decode)
    requires forall g :: 0 <= g < |groups| ==> AllDecodeFiles(groups[g], decode)
    ensures |rs| == |groups|
  {
    seq(|groups|, g requires 0 <= g < |groups| => LegacyComposeGrid(ImagesOf(groups[g], decode), opts, encode))
  }

  /** The export once every photo decoded: always a ZIP named foto-grids.zip, aborted with an alert at the first failing group. */
  function LegacyExportSpec(groups: seq<seq<FileInfo>>, opts: LegacyOptions, decode: FileInfo -> Result<ImageSize, Thrown>,
                            encode: (DrawPlan, EncodeRequest) -> Option<Blob>,
                            archive: seq<ZipEntry> -> Result<Blob, Thrown>): LegacyOutcome
    requires ValidShape(opts.base) && PositiveDecoder(decode)
    requires forall g :: 0 <= g < |groups| ==> AllDecodeFiles(groups[g], decode)
  {
    match ZipEntries(LegacyGroupResults(groups, opts, decode, encode), Extension(opts.base.output))
    case Failure(e) => Alerted(LegacyDescribeError(e))
    case Success(entries) =>
      match archive(entries)
      case Failure(e) => ArchiveRejected(e)
      case Success(zip) => Downloaded("foto-grids.zip", entries, zip)
  }

  /** When every photo decodes, every group decodes. */
  lemma LegacyGroupsDecode(files: seq<FileInfo>, size: int, decode: FileInfo -> Result<ImageSize, Thrown>)
    requires size >= 1
    requires DecodeAll(Flatten(FullGroups(files, size)), decode).Success?
    ensures forall g :: 0 <= g < |FullGroups(files, size)| ==> AllDecodeFiles(FullGroups(files, size)[g], decode)
  {
    var groups: seq<seq<FileInfo>> := FullGroups(files, size);
    forall g | 0 <= g < |groups|
      ensures AllDecodeFiles(groups[g], decode)
    {
      forall k | 0 <= k < |groups[g]|
        ensures decode(groups[g][k]).Success?
      {
        FullGroupsElement(files, size, g, k);
        assert Flatten(groups)[g * size + k] == groups[g][k];
      }
    }
  }

  /** downloadAll as a value: the two alerts, then the groups, the decoding and the ZIP. */
  function LegacyDownloadSpec(files: seq<FileInfo>, opts: LegacyOptions, decode: FileInfo -> Result<ImageSize, Thrown>,
                              encode: (DrawPlan, EncodeRequest) -> Option<Blob>,
                              archive: seq<ZipEntry> -> Result<Blob, Thrown>): (out: LegacyOutcome)
    requires ValidShape(opts.base) && PositiveDecoder(decode)
    ensures !out.Alerted? ==>
      |files| >= opts.base.rows * opts.base.cols && |files| % (opts.base.rows * opts.base.cols) == 0
  {
    ShapeGroupSize(opts.base.rows, opts.base.cols);
    var size := GroupSize(opts.base.rows, opts.base.cols);
    var n := |files|;
    if n < size then Alerted(AtLeastAlert(size))
    else if Remainder(n, size) != 0 then Alerted(MissingAlert(size - Remainder(n, size)))
    else
      var groups := FullGroups(files, size);
      var decoded := DecodeAll(Flatten(groups), decode);
      if decoded.Failure? then DecodeRejected(decoded.error)
      else
        LegacyGroupsDecode(files, size, decode);
        LegacyExportSpec(groups, opts, decode, encode, archive)
  }

  /** The guards: the exact alert texts, and past them the export of the full groups, which use every photo. */
  lemma LegacyDownloadGuards(files: seq<FileInfo>, opts: LegacyOptions, decode: FileInfo -> Result<ImageSize, Thrown>,
                             encode: (DrawPlan, EncodeRequest) -> Option<Blob>, archive: seq<ZipEntry> -> Result<Blob, Thrown>)
    requires ValidShape(opts.base) && PositiveDecoder(decode)
    ensures var size, n := GroupSize(opts.base.rows, opts.base.cols), |files|;
      var out := LegacyDownloadSpec(files, opts, decode, encode, archive);
      && size == opts.base.rows * opts.base.cols
      && (n < size ==> out == Alerted(AtLeastAlert(size)))
      && (n >= size && n % size != 0 ==> out == Alerted(MissingAlert(size - n % size)) && size - n % size == Missing(n, size))
      && (n >= size && n % size == 0 ==>
            Flatten(FullGroups(files, size)) == files
            && |FullGroups(files, size)| == n / size
            && (DecodeAll(files, decode).Failure? ==> out == DecodeRejected(DecodeAll(files, decode).error)))
  {
    ShapeGroupSize(opts.base.rows, opts.base.cols);
    FlattenFullGroups(files, GroupSize(opts.base.rows, opts.base.cols));
  }

  /** A download is always a ZIP named foto-grids.zip, even for one group, with entries grid-01, grid-02, ... in group order. */
  lemma LegacyAlwaysZips(groups: seq<seq<FileInfo>>, opts: LegacyOptions, decode: FileInfo -> Result<ImageSize, Thrown>,
                         encode: (DrawPlan, EncodeRequest) -> Option<Blob>, archive: seq<ZipEntry> -> Result<Blob, Thrown>)
    requires ValidShape(opts.base) && PositiveDecoder(decode)
    requires forall g :: 0 <= g < |groups| ==> AllDecodeFiles(groups[g], decode)
    requires LegacyExportSpec(groups, opts, decode, encode, archive).Downloaded?
    ensures var out := LegacyExportSpec(groups, opts, decode, encode, archive);
      var results := LegacyGroupResults(groups, opts, decode, encode);
      && out.name == "foto-grids.zip"
      && |out.entries| == |groups|
      && forall k :: 0 <= k < |groups| ==>
           results[k].Success?
           && out.entries[k] == ZipEntry(EntryName(k + 1, Extension(opts.base.output)), results[k].value)
  {
    ZipEntriesSuccess(LegacyGroupResults(groups, opts, decode, encode), Extension(opts.base.output));
  }

  /** The first group that fails to compose is alerted and nothing is archived; with no failure there is no alert. */
  lemma LegacyFailFast(groups: seq<seq<FileInfo>>, opts: LegacyOptions, decode: FileInfo -> Result<ImageSize, Thrown>,
                       encode: (DrawPlan, EncodeRequest) -> Option<Blob>, archive: seq<ZipEntry> -> Result<Blob, Thrown>)
    requires ValidShape(opts.base) && PositiveDecoder(decode)
    requires forall g :: 0 <= g < |groups| ==> AllDecodeFiles(groups[g], decode)
    ensures var out := LegacyExportSpec(groups, opts, decode, encode, archive);
      var results := LegacyGroupResults(groups, opts, decode, encode);
      && (out.Alerted? <==> exists g :: 0 <= g < |groups| && results[g].Failure?)
      && (out.Alerted? ==>
            exists g :: 0 <= g < |groups| && results[g].Failure?
              && out.message == LegacyDescribeError(results[g].error)
              && forall j :: 0 <= j < g ==> results[j].Success?)
  {
    var results := LegacyGroupResults(groups, opts, decode, encode);
    var ext := Extension(opts.base.output);
    ZipEntriesSuccess(results, ext);
    if ZipEntries(results, ext).Failure? {
      ZipEntriesFirstFailure(results, ext);
    }
  }

  // ---------------------------------------------------------------- preview

  /** The legacy preview canvas: a placeholder with a caption, or the fitted grid. */
  datatype LegacyPreview = Primed(width: int, height: int, caption: string) | Drawn(width: int, height: int, image: Rect)

  /** primeCanvas: the canvas is resized to 360 by 200 and the caption written on it. */
  function Caption(message: string): (p: LegacyPreview)
    ensures p.Primed? && p.width == 360 && p.height == 200 && p.caption == message
  {
    Primed(360, 200, message)
  }

  /**
   * The preview effect as a value: a caption asking for rows * cols photos
   * while the group is missing or short; otherwise the rendering caption
   * stays up when a photo fails to decode or the layout throws, and the grid
   * is drawn fitted into 480 by 360 on a canvas of at least 320 by 240.
   */
  function LegacyPreviewSpec(group: Option<seq<FileInfo>>, opts: LegacyOptions, decode: FileInfo -> Result<ImageSize, Thrown>)
    : (p: LegacyPreview)
    requires ValidShape(opts.base) && PositiveDecoder(decode)
    ensures (group.None? || |group.value| < opts.base.rows * opts.base.cols) <==>
            p == Caption("Add at least " + IntToString(opts.base.rows * opts.base.cols) + " photo"
                         + Plural(opts.base.rows * opts.base.cols) + " to see preview")
    ensures p.Primed? ==> p.width == 360 && p.height == 200
    ensures p.Primed? && group.Some? && |group.value| >= opts.base.rows * opts.base.cols ==>
            p.caption == "Rendering preview…"
  {
    var expected := opts.base.rows * opts.base.cols;
    if group.None? || |group.value| < expected then
      Caption("Add at least " + IntToString(expected) + " photo" + Plural(expected) + " to see preview")
    else if !AllDecodeFiles(group.value, decode) then Caption("Rendering preview…")
    else
      match LegacyPlan(ImagesOf(group.value, decode), opts)
      case Failure(_) => Caption("Rendering preview…")
      case Success(plan) =>
        var f := Preview.FitPreview(plan.width, plan.height, 480, 360);
        Drawn(f.width, f.height, Rect(f.offsetX, f.offsetY, f.drawWidth, f.drawHeight))
  }

  /**
   * The grid is drawn exactly when the group holds one grid's worth of
   * photos, every photo decodes and the gutters leave room for the cells;
   * otherwise a caption stays on the placeholder.
   */
  lemma LegacyPreviewDrawsIff(group: Option<seq<FileInfo>>, opts: LegacyOptions, decode: FileInfo -> Result<ImageSize, Thrown>)
    requires ValidShape(opts.base) && PositiveDecoder(decode)
    ensures LegacyPreviewSpec(group, opts, decode).Drawn?
            <==> group.Some? && |group.value| == opts.base.rows * opts.base.cols && AllDecodeFiles(group.value, decode)
                 && Fits(GeometryOf(opts.base))
  {
  }

  /** A drawn preview fits 480 by 360, never upscales, and lies inside a canvas of at least 320 by 240. */
  lemma LegacyPreviewFits(group: Option<seq<FileInfo>>, opts: LegacyOptions, decode: FileInfo -> Result<ImageSize, Thrown>)
    requires ValidShape(opts.base) && PositiveDecoder(decode)
    requires LegacyPreviewSpec(group, opts, decode).Drawn?
    ensures var p := LegacyPreviewSpec(group, opts, decode);
      && p.width >= 320 && p.height >= 240
      && 1 <= p.image.width <= 480 && 1 <= p.image.height <= 360
      && 0 <= p.image.left && p.image.left + p.image.width <= p.width
      && 0 <= p.image.top && p.image.top + p.image.height <= p.height
      && p.image.width <= GeometryOf(opts.base).outW && p.image.height <= GeometryOf(opts.base).outH
  {
    var plan := LegacyPlan(ImagesOf(group.value, decode), opts).value;
    Preview.FitWithinBounds(plan.width, plan.height, 480, 360);
    Preview.FitNeverUpscales(plan.width, plan.height, 480, 360);
  }

  // ---------------------------------------------------------------- adding files

  /** The files onFilesAdded keeps: those whose type starts with image/, in order. */
  function ImageFilesOf(list: seq<FileInfo>): (kept: seq<FileInfo>)
    ensures |kept| <= |list|
    ensures forall k :: 0 <= k < |kept| ==> StartsWith(kept[k].mimeType, "image/") && kept[k] in list
    ensures forall f :: f in list && StartsWith(f.mimeType, "image/") ==> f in kept
  {
    if list == [] then []
    else
      var init := list[..|list| - 1];
      var last := list[|list| - 1];
      assert list == init + [last];
      ImageFilesOf(init) + (if StartsWith(last.mimeType, "image/") then [last] else [])
  }

  /** Filtering a concatenation filters each part. */
  lemma {:induction false} ImageFilesAppend(a: seq<FileInfo>, b: seq<FileInfo>)
    ensures ImageFilesOf(a + b) == ImageFilesOf(a) + ImageFilesOf(b)
    decreases |b|
  {
    if b == [] {
      assert a + b == a;
    } else {
      var b' := b[..|b| - 1];
      assert (a + b)[..|a + b| - 1] == a + b' && (a + b)[|a + b| - 1] == b[|b| - 1];
      ImageFilesAppend(a, b');
    }
  }

  /** A single file is kept exactly when its type starts with image/. */
  lemma ImageFilesOne(f: FileInfo)
    ensures ImageFilesOf([f]) == (if StartsWith(f.mimeType, "image/") then [f] else [])
  {
    assert [f][..0] == [];
  }

  // ---------------------------------------------------------------- the component state

  /** The state App keeps: the files, the options and the busy flag. */
  class LegacyApp {
    var files: seq<FileInfo>
    var opts: LegacyOptions
    var busy: bool

    /** The options always have a valid grid shape. */
    predicate Valid()
      reads this
    {
      ValidShape(opts.base)
    }

    /** The initial state: no files, a 1 by 2 grid of 15 by 10 cm at 300 DPI with rotation on. */
    constructor ()
      ensures Valid() && files == [] && !busy
      ensures opts == LegacyOptions(true, DefaultOptions)
    {
      files := [];
      opts := LegacyOptions(true, DefaultOptions);
      busy := false;
    }

    /** onFilesAdded: append the files whose type starts with image/, in order. */
    method OnFilesAdded(list: seq<FileInfo>)
      modifies this
      ensures files == old(files) + ImageFilesOf(list)
      ensures opts == old(opts) && busy == old(busy)
    {
      var kept: seq<FileInfo> := [];
      for i := 0 to |list|
        invariant kept == ImageFilesOf(list[..i])
      {
        assert list[..i + 1][..i] == list[..i];
        if StartsWith(list[i].mimeType, "image/") {
          kept := kept + [list[i]];
        }
      }
      assert list[..|list|] == list;
      files := files + kept;
    }

    /** removeAll. */
    method RemoveAll()
      modifies this
      ensures files == [] && opts == old(opts) && busy == old(busy)
    {
      files := [];
    }

    /** The rows input. */
    method RowsChanged(text: string)
      requires Valid()
      modifies this
      ensures Valid() && opts == old(opts).(base := old(opts).base.(rows := GridCountInput(text)))
      ensures files == old(files) && busy == old(busy)
    {
      opts := opts.(base := opts.base.(rows := GridCountInput(text)));
    }

    /** The columns input. */
    method ColsChanged(text: string)
      requires Valid()
      modifies this
      ensures Valid() && opts == old(opts).(base := old(opts).base.(cols := GridCountInput(text)))
      ensures files == old(files) && busy == old(busy)
    {
      opts := opts.(base := opts.base.(cols := GridCountInput(text)));
    }

    /** The width input, given what parseFloat made of the text. */
    method WidthChanged(parsed: JsNumber)
      requires Valid()
      modifies this
      ensures Valid() && opts == old(opts).(base := old(opts).base.(widthCm := SizeInput(parsed, old(opts).base.widthCm)))
      ensures files == old(files) && busy == old(busy)
    {
      opts := opts.(base := opts.base.(widthCm := SizeInput(parsed, opts.base.widthCm)));
    }

    /** The height input, given what parseFloat made of the text. */
    method HeightChanged(parsed: JsNumber)
      requires Valid()
      modifies this
      ensures Valid() && opts == old(opts).(base := old(opts).base.(heightCm := SizeInput(parsed, old(opts).base.heightCm)))
      ensures files == old(files) && busy == old(busy)
    {
      opts := opts.(base := opts.base.(heightCm := SizeInput(parsed, opts.base.heightCm)));
    }

    /** The DPI input. */
    method DpiChanged(text: string)
      requires Valid()
      modifies this
      ensures Valid() && opts == old(opts).(base := old(opts).base.(dpi := DpiInput(text, old(opts).base.dpi)))
      ensures files == old(files) && busy == old(busy)
    {
      opts := opts.(base := opts.base.(dpi := DpiInput(text, opts.base.dpi)));
    }

    /** The rotation checkbox. */
    method RotateChanged(checked: bool)
      requires Valid()
      modifies this
      ensures Valid() && opts == old(opts).(rotate90 := checked)
      ensures files == old(files) && busy == old(busy)
    {
      opts := opts.(rotate90 := checked);
    }

    /**
     * downloadAll: the two alerts, then busy while the groups are collected,
     * every photo decoded and the groups composed one by one into the ZIP,
     * stopping at the first failure; busy is cleared whatever happens after
     * the guards.
     */
    method DownloadAll(decode: FileInfo -> Result<ImageSize, Thrown>,
                       encode: (DrawPlan, EncodeRequest) -> Option<Blob>,
                       archive: seq<ZipEntry> -> Result<Blob, Thrown>) returns (outcome: LegacyOutcome)
      requires Valid() && PositiveDecoder(decode)
      modifies this
      ensures outcome == LegacyDownloadSpec(old(files), old(opts), decode, encode, archive)
      ensures files == old(files) && opts == old(opts)
      ensures var size := GroupSize(opts.base.rows, opts.base.cols);
        busy == (if |files| < size || |files| % size != 0 then old(busy) else false)
    {
      var size := GroupSize(opts.base.rows, opts.base.cols);
      var n := |files|;
      if n < size {
        return Alerted(AtLeastAlert(size));
      }
      if Remainder(n, size) != 0 {
        return Alerted(MissingAlert(size - Remainder(n, size)));
      }
      busy := true;
      outcome := LegacyExportFiles(files, opts, decode, encode, archive);
      busy := false;
    }
  }

  /**
   * downloadAll past the alerts: collect the full groups, decode every photo,
   * compose the groups into the ZIP entries and hand them to the archiver.
   */
  method LegacyExportFiles(files: seq<FileInfo>, opts: LegacyOptions, decode: FileInfo -> Result<ImageSize, Thrown>,
                           encode: (DrawPlan, EncodeRequest) -> Option<Blob>,
                           archive: seq<ZipEntry> -> Result<Blob, Thrown>) returns (outcome: LegacyOutcome)
    requires ValidShape(opts.base) && PositiveDecoder(decode)
    requires var size := GroupSize(opts.base.rows, opts.base.cols); |files| >= size && Remainder(|files|, size) == 0
    ensures outcome == LegacyDownloadSpec(files, opts, decode, encode, archive)
  {
    var size := GroupSize(opts.base.rows, opts.base.cols);
    var groups := CollectGroups(files, size);
    var decoded := DecodeAll(Flatten(groups), decode);
    if decoded.Failure? {
      return DecodeRejected(decoded.error);
    }
    LegacyGroupsDecode(files, size, decode);
    var composed := LegacyComposeEntries(groups, opts, decode, encode);
    if composed.Failure? {
      return Alerted(LegacyDescribeError(composed.error));
    }
    var zip := archive(composed.value);
    if zip.Failure? {
      return ArchiveRejected(zip.error);
    }
    outcome := Downloaded("foto-grids.zip", composed.value, zip.value);
  }

  /** The loop over the groups: compose each, add it as grid-NN.ext with idx counting from 1, stop at the first failure. */
  method LegacyComposeEntries(groups: seq<seq<FileInfo>>, opts: LegacyOptions, decode: FileInfo -> Result<ImageSize, Thrown>,
                              encode: (DrawPlan, EncodeRequest) -> Option<Blob>) returns (r: Result<seq<ZipEntry>, Thrown>)
    requires ValidShape(opts.base) && PositiveDecoder(decode)
    requires forall g :: 0 <= g < |groups| ==> AllDecodeFiles(groups[g], decode)
    ensures r == ZipEntries(LegacyGroupResults(groups, opts, decode, encode), Extension(opts.base.output))
  {
    ghost var results := LegacyGroupResults(groups, opts, decode, encode);
    var ext := Extension(opts.base.output);
    var entries: seq<ZipEntry> := [];
    var idx := 1;
    for g := 0 to |groups|
      invariant idx == g + 1
      invariant ZipEntries(results[..g], ext) == Success(entries)
    {
      var blob := LegacyComposeGrid(ImagesOf(groups[g], decode), opts, encode);
      assert blob == results[g];
      ZipEntriesStep(results, g, entries, ext);
      if blob.Failure? {
        ZipEntriesPrefixFailure(results, g + 1, ext);
        return Failure(blob.error);
      }
      entries := entries + [ZipEntry(EntryName(idx, ext), blob.value)];
      idx := idx + 1;
    }
    assert results[..|groups|] == results;
    r := Success(entries);
  }
}
