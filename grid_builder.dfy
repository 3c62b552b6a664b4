/**
 * The builder state of src/hooks/useGridBuilder.ts: the list of chosen
 * files with their rotations, the busy flag and the notice, the derived
 * counts and flags, and the export (one image or a ZIP of numbered grids).
 */
module GridBuilder {
  import opened Wrappers
  import opened JsBuiltins
  import opened Platform
  import opened Errors
  import opened Options
  import opened Grid
  import opened Batch

  /** ImgFile: an id, the file, and its rotation in quarter turns. */
  datatype ImgFile = ImgFile(id: string, file: FileInfo, rotationQuarterTurns: int)

  datatype NoticeKind = Info | Warning | ErrorNotice | SuccessNotice

  datatype Notice = Notice(kind: NoticeKind, text: string)

  // ---------------------------------------------------------------- list updates

  /** addFiles' filter: the MIME type starts with "image/", compared as written. */
  predicate Admits(file: FileInfo) {
    StartsWith(file.mimeType, "image/")
  }

  /** The items addFiles appends: one per admitted file, in order, with that file's id and no rotation. */
  function NewItems(list: seq<FileInfo>, ids: seq<string>): (items: seq<ImgFile>)
    requires |ids| == |list|
    ensures |items| <= |list|
    ensures forall k :: 0 <= k < |items| ==> Admits(items[k].file) && items[k].rotationQuarterTurns == 0
    ensures forall i :: 0 <= i < |list| && Admits(list[i]) ==> ImgFile(ids[i], list[i], 0) in items
    ensures items == [] <==> forall i :: 0 <= i < |list| ==> !Admits(list[i])
  {
    if list == [] then []
    else
      var rest := NewItems(list[1..], ids[1..]);
      assert forall i :: 1 <= i < |list| ==> list[i] == list[1..][i - 1] && ids[i] == ids[1..][i - 1];
      if Admits(list[0]) then [ImgFile(ids[0], list[0], 0)] + rest else rest
  }

  /** The list without every item carrying the id. */
  function Without(files: seq<ImgFile>, id: string): (r: seq<ImgFile>)
    ensures |r| <= |files|
    ensures forall k :: 0 <= k < |r| ==> r[k].id != id && r[k] in files
    ensures forall i :: 0 <= i < |files| && files[i].id != id ==> files[i] in r
  {
    if files == [] then []
    else
      var rest := Without(files[1..], id);
      assert forall i :: 1 <= i < |files| ==> files[i] == files[1..][i - 1];
      if files[0].id == id then rest else [files[0]] + rest
  }

  /** Removing an id no item carries changes nothing. */
  lemma {:induction false} WithoutAbsent(files: seq<ImgFile>, id: string)
    requires forall k :: 0 <= k < |files| ==> files[k].id != id
    ensures Without(files, id) == files
  {
    if files != [] {
      WithoutAbsent(files[1..], id);
    }
  }

  /** Filtering a concatenation filters each part: addFiles keeps the input order. */
  lemma {:induction false} NewItemsAppend(l1: seq<FileInfo>, i1: seq<string>, l2: seq<FileInfo>, i2: seq<string>)
    requires |i1| == |l1| && |i2| == |l2|
    ensures NewItems(l1 + l2, i1 + i2) == NewItems(l1, i1) + NewItems(l2, i2)
  {
    if l1 == [] {
      assert l1 + l2 == l2 && i1 + i2 == i2;
    } else {
      assert (l1 + l2)[1..] == l1[1..] + l2 && (i1 + i2)[1..] == i1[1..] + i2;
      assert (l1 + l2)[0] == l1[0] && (i1 + i2)[0] == i1[0];
      NewItemsAppend(l1[1..], i1[1..], l2, i2);
    }
  }

  /** A single file becomes an unrotated item with its id exactly when it is an image. */
  lemma NewItemsOne(f: FileInfo, id: string)
    ensures NewItems([f], [id]) == (if Admits(f) then [ImgFile(id, f, 0)] else [])
  {
    assert [f][1..] == [] && [id][1..] == [];
  }

  /** Removing from a concatenation removes from each part: removeFile keeps the order of the rest. */
  lemma {:induction false} WithoutAppend(f1: seq<ImgFile>, f2: seq<ImgFile>, id: string)
    ensures Without(f1 + f2, id) == Without(f1, id) + Without(f2, id)
  {
    if f1 == [] {
      assert f1 + f2 == f2;
    } else {
      assert (f1 + f2)[1..] == f1[1..] + f2 && (f1 + f2)[0] == f1[0];
      WithoutAppend(f1[1..], f2, id);
    }
  }

  /** A single item is dropped exactly when it carries the id. */
  lemma WithoutOne(item: ImgFile, id: string)
    ensures Without([item], id) == (if item.id == id then [] else [item])
  {
    assert [item][1..] == [];
  }

  /** One rotation step: JavaScript's (t + 1) % 4. */
  function NextTurn(t: int): (u: int)
    ensures 0 <= t < 4 ==> 0 <= u < 4 && u == (t + 1) % 4
  {
    JsRem(t + 1, 4)
  }

  /** The list after one rotation step of every item with the id; every other item stays as it was. */
  function Cycled(files: seq<ImgFile>, id: string): (r: seq<ImgFile>)
    ensures |r| == |files|
    ensures forall k :: 0 <= k < |files| ==>
      if files[k].id == id then r[k] == files[k].(rotationQuarterTurns := NextTurn(files[k].rotationQuarterTurns))
      else r[k] == files[k]
  {
    seq(|files|, k requires 0 <= k < |files| =>
      if files[k].id == id then files[k].(rotationQuarterTurns := NextTurn(files[k].rotationQuarterTurns)) else files[k])
  }

  /** Every rotation is one of 0, 1, 2, 3. */
  predicate TurnsInRange(files: seq<ImgFile>) {
    forall k :: 0 <= k < |files| ==> 0 <= files[k].rotationQuarterTurns < 4
  }

  /** Four rotation steps bring every item back to where it started. */
  lemma CycleFourTimes(files: seq<ImgFile>, id: string)
    requires TurnsInRange(files)
    ensures Cycled(Cycled(Cycled(Cycled(files, id), id), id), id) == files
  {
    var c1 := Cycled(files, id);
    var c2 := Cycled(c1, id);
    var c3 := Cycled(c2, id);
    var c4 := Cycled(c3, id);
    forall k | 0 <= k < |files|
      ensures c4[k] == files[k]
    {
      var t := files[k].rotationQuarterTurns;
      if files[k].id == id {
        assert c1[k] == files[k].(rotationQuarterTurns := NextTurn(t));
        assert c2[k] == files[k].(rotationQuarterTurns := NextTurn(NextTurn(t)));
        assert c3[k] == files[k].(rotationQuarterTurns := NextTurn(NextTurn(NextTurn(t))));
        NextTurnFour(t);
      }
    }
  }

  /** Four steps of (t + 1) % 4 return to t. */
  lemma NextTurnFour(t: int)
    requires 0 <= t < 4
    ensures NextTurn(NextTurn(NextTurn(NextTurn(t)))) == t
  {
    if t == 0 {
      assert NextTurn(0) == 1 && NextTurn(1) == 2 && NextTurn(2) == 3 && NextTurn(3) == 0;
    } else if t == 1 {
      assert NextTurn(1) == 2 && NextTurn(2) == 3 && NextTurn(3) == 0 && NextTurn(0) == 1;
    } else if t == 2 {
      assert NextTurn(2) == 3 && NextTurn(3) == 0 && NextTurn(0) == 1 && NextTurn(1) == 2;
    } else {
      assert NextTurn(3) == 0 && NextTurn(0) == 1 && NextTurn(1) == 2 && NextTurn(2) == 3;
    }
  }

  // ---------------------------------------------------------------- derived values

  /** previewShortfall: the photos still needed before the first preview. */
  function PreviewShortfall(n: nat, size: int): (m: int)
    requires size >= 1
    ensures 0 <= m < size + 1
    ensures m == 0 <==> n >= size
    ensures m > 0 ==> n + m == size
  {
    Max(0, size - n)
  }

  /** readyForDownload: at least one group and no leftover photos. */
  predicate ReadyForDownload(n: nat, size: int)
    requires size >= 1
  {
    n >= size && Remainder(n, size) == 0
  }

  /** The flags are tied to the groups: preview is ready iff a full group exists; download iff the groups use every photo. */
  lemma ReadinessFlags<T>(files: seq<T>, size: int)
    requires size >= 1
    ensures |FullGroups(files, size)| > 0 <==> |files| >= size
    ensures ReadyForDownload(|files|, size) <==> FullGroups(files, size) != [] && Flatten(FullGroups(files, size)) == files
    ensures ReadyForDownload(|files|, size) <==> PreviewShortfall(|files|, size) == 0 && Missing(|files|, size) == 0
  {
    FullGroupsCount(files, size);
    FlattenFullGroups(files, size);
    if Flatten(FullGroups(files, size)) == files {
      var q := |files| / size;
      assert |files[..q * size]| == q * size == |files|;
      assert |files| % size == 0 by { DivExactMultiple(q, size); }
    }
  }

  lemma DivExactMultiple(q: int, size: int)
    requires q >= 0 && size >= 1
    ensures (q * size) % size == 0
  {
    DivExact(q, size, q * size);
  }

  /** singleFileResult: no more photos than one group. */
  predicate SingleFileResult(n: nat, size: int) {
    n <= size
  }

  /** The displayed output size: round(max(8, cm / 2.54 * dpi)). */
  function OutputPx(cm: real, dpi: real): (px: int)
    ensures px >= 8
  {
    Round(MaxR(8.0, cm / 2.54 * dpi))
  }

  /** For positive sizes and DPI the displayed size is the size of the canvas the engine makes. */
  lemma OutputPxMatchesCanvas(cm: real, fallback: real, dpi: real)
    requires cm > 0.0 && dpi > 0.0
    ensures OutputPx(cm, dpi) == CanvasSide(Finite(cm), fallback, Finite(dpi))
  {
    var x := cm / 2.54 * dpi;
    if x < 8.0 {
      RoundMonotone(x, 8.0);
      RoundOfInteger(8);
    }
  }

  // ---------------------------------------------------------------- export

  function FilesOf(items: seq<ImgFile>): (fs: seq<FileInfo>)
    ensures |fs| == |items| && forall k :: 0 <= k < |items| ==> fs[k] == items[k].file
  {
    seq(|items|, k requires 0 <= k < |items| => items[k].file)
  }

  predicate AllDecode(items: seq<ImgFile>, decode: FileInfo -> Result<ImageSize, Thrown>) {
    forall k :: 0 <= k < |items| ==> decode(items[k].file).Success?
  }

  /** The frames composeGrid receives for a group: each decoded image with the item's rotation. */
  function FramesOf(group: seq<ImgFile>, decode: FileInfo -> Result<ImageSize, Thrown>): (frames: seq<Frame>)
    requires PositiveDecoder(decode) && AllDecode(group, decode)
    ensures |frames| == |group| && Decoded(frames)
  {
    seq(|group|, k requires 0 <= k < |group| =>
      Frame(decode(group[k].file).value, Finite(group[k].rotationQuarterTurns as real)))
  }

  /** What download does with the groups, as a value. */
  datatype ExportFile =
    | SingleGrid(name: string, blob: Blob)
    | GridZip(name: string, entries: seq<ZipEntry>, archive: Blob)

  datatype DownloadOutcome =
    | Warned(notice: Notice)              // a guard failed; nothing composed
    | DecodeRejected(error: Thrown)       // ensureImages rejected; download itself rejects
    | ComposeFailed(notice: Notice)       // a composition or the one-file download threw; error notice
    | ArchiveRejected(error: Thrown)      // generating the ZIP rejected; download itself rejects
    | Exported(file: ExportFile, notice: Notice)

  function AtLeastWarning(size: int): string {
    "Please add at least " + IntToString(size) + " photo" + Plural(size) + " before exporting."
  }

  function MissingWarning(missing: int): string {
    "Add " + IntToString(missing) + " more photo" + Plural(missing) + " to complete the next grid."
  }

  /** The composition result of every group, in order. */
  function GroupResults(groups: seq<seq<ImgFile>>, opts: ComposeOptions, decode: FileInfo -> Result<ImageSize, Thrown>,
                        encode: (DrawPlan, EncodeRequest) -> Option<Blob>): (rs: seq<Result<Option<Blob>, Thrown>>)
    requires ValidShape(opts) && PositiveDecoder(decode)
    requires forall g :: 0 <= g < |groups| ==> AllDecode(groups[g], decode)
    ensures |rs| == |groups|
  {
    seq(|groups|, g requires 0 <= g < |groups| => ComposeGrid(FramesOf(groups[g], decode), opts, encode))
  }

  /**
   * The export once the guards passed and every photo decoded: one image for
   * one group, else a ZIP. An encoder that yields no blob for the one image
   * makes triggerFileDownload throw (URL.createObjectURL refuses null); that
   * TypeError, whose message the browser chooses, is the parameter urlError.
   * A ZIP entry without a blob is stored empty, so the ZIP path has no such case.
   */
  function ExportSpec(groups: seq<seq<ImgFile>>, count: int, opts: ComposeOptions, decode: FileInfo -> Result<ImageSize, Thrown>,
                      encode: (DrawPlan, EncodeRequest) -> Option<Blob>,
                      archive: seq<ZipEntry> -> Result<Blob, Thrown>, urlError: Thrown): (out: DownloadOutcome)
    requires ValidShape(opts) && PositiveDecoder(decode)
    requires forall g :: 0 <= g < |groups| ==> AllDecode(groups[g], decode)
    ensures !out.Warned? && !out.DecodeRejected?
    ensures out.ArchiveRejected? ==> |groups| != 1
  {
    var results := GroupResults(groups, opts, decode, encode);
    var ext := Extension(opts.output);
    if |groups| == 1 then
      match results[0]
      case Failure(e) => ComposeFailed(Notice(ErrorNotice, DescribeError(e)))
      case Success(None) => ComposeFailed(Notice(ErrorNotice, DescribeError(urlError)))
      case Success(Some(blob)) => Exported(SingleGrid("grid." + ext, blob), Notice(SuccessNotice, "Exported 1 grid image."))
    else
      match ZipEntries(results, ext)
      case Failure(e) => ComposeFailed(Notice(ErrorNotice, DescribeError(e)))
      case Success(entries) =>
        match archive(entries)
        case Failure(e) => ArchiveRejected(e)
        case Success(zip) =>
          Exported(GridZip("photo-grids.zip", entries, zip),
                   Notice(SuccessNotice, "Exported " + IntToString(count) + " grids as a ZIP."))
  }

  /**
   * download as a value: the two guards, then the groups, decoding, and
   * either one image or a ZIP whose first failing group aborts the export.
   */
  function DownloadSpec(files: seq<ImgFile>, opts: ComposeOptions, decode: FileInfo -> Result<ImageSize, Thrown>,
                        encode: (DrawPlan, EncodeRequest) -> Option<Blob>,
                        archive: seq<ZipEntry> -> Result<Blob, Thrown>, urlError: Thrown): (out: DownloadOutcome)
    requires ValidShape(opts) && PositiveDecoder(decode)
    ensures !out.Warned? ==> |files| >= opts.rows * opts.cols && |files| % (opts.rows * opts.cols) == 0
  {
    ShapeGroupSize(opts.rows, opts.cols);
    var size := GroupSize(opts.rows, opts.cols);
    var n := |files|;
    if n < size then Warned(Notice(Warning, AtLeastWarning(size)))
    else if Remainder(n, size) != 0 then Warned(Notice(Warning, MissingWarning(size - Remainder(n, size))))
    else
      var groups := FullGroups(files, size);
      var decoded := DecodeAll(FilesOf(Flatten(groups)), decode);
      if decoded.Failure? then DecodeRejected(decoded.error)
      else
        GroupsDecode(files, size, decode);
        ExportSpec(groups, n / size, opts, decode, encode, archive, urlError)
  }

  /** When every photo of the groups decodes, every group decodes. */
  lemma GroupsDecode(files: seq<ImgFile>, size: int, decode: FileInfo -> Result<ImageSize, Thrown>)
    requires size >= 1
    requires DecodeAll(FilesOf(Flatten(FullGroups(files, size))), decode).Success?
    ensures forall g :: 0 <= g < |FullGroups(files, size)| ==> AllDecode(FullGroups(files, size)[g], decode)
  {
    var groups: seq<seq<ImgFile>> := FullGroups(files, size);
    var fs := FilesOf(Flatten(groups));
    forall g | 0 <= g < |groups|
      ensures AllDecode(groups[g], decode)
    {
      forall k | 0 <= k < |groups[g]|
        ensures decode(groups[g][k].file).Success?
      {
        FullGroupsElement(files, size, g, k);
        var i := g * size + k;
        assert Flatten(groups)[i] == groups[g][k];
        assert fs[i] == groups[g][k].file;
        assert decode(fs[i]).Success?;
      }
    }
  }

  /**
   * The ZIP loop: compose the groups in order, name each entry after its
   * 1-based number, and stop at the first group that fails.
   */
  method ComposeZipEntries(groups: seq<seq<ImgFile>>, opts: ComposeOptions, decode: FileInfo -> Result<ImageSize, Thrown>,
                           encode: (DrawPlan, EncodeRequest) -> Option<Blob>) returns (r: Result<seq<ZipEntry>, Thrown>)
    requires ValidShape(opts) && PositiveDecoder(decode)
    requires forall g :: 0 <= g < |groups| ==> AllDecode(groups[g], decode)
    ensures r == ZipEntries(GroupResults(groups, opts, decode, encode), Extension(opts.output))
  {
    ghost var results := GroupResults(groups, opts, decode, encode);
    var ext := Extension(opts.output);
    var entries: seq<ZipEntry> := [];
    var index := 1;
    for g := 0 to |groups|
      invariant index == g + 1
      invariant ZipEntries(results[..g], ext) == Success(entries)
    {
      var blob := ComposeGrid(FramesOf(groups[g], decode), opts, encode);
      assert blob == results[g];
      ZipEntriesStep(results, g, entries, ext);
      if blob.Failure? {
        ZipEntriesPrefixFailure(results, g + 1, ext);
        return Failure(blob.error);
      }
      entries := entries + [ZipEntry(EntryName(index, ext), blob.value)];
      index := index + 1;
    }
    assert results[..|groups|] == results;
    r := Success(entries);
  }

  /** The guards: a warning exactly when there is no full group or photos are left over, with the exact texts. */
  lemma DownloadWarnings(files: seq<ImgFile>, opts: ComposeOptions, decode: FileInfo -> Result<ImageSize, Thrown>,
                         encode: (DrawPlan, EncodeRequest) -> Option<Blob>,
                         archive: seq<ZipEntry> -> Result<Blob, Thrown>, urlError: Thrown)
    requires ValidShape(opts) && PositiveDecoder(decode)
    ensures var size, n := GroupSize(opts.rows, opts.cols), |files|;
      var out := DownloadSpec(files, opts, decode, encode, archive, urlError);
      && size == opts.rows * opts.cols
      && (out.Warned? <==> n < size || n % size != 0)
      && (n < size ==> out == Warned(Notice(Warning, AtLeastWarning(size))))
      && (size <= n && n % size != 0 ==>
            out == Warned(Notice(Warning, MissingWarning(Missing(n, size)))) && 1 <= Missing(n, size) < size)
  {
    ShapeGroupSize(opts.rows, opts.cols);
  }

  /** Past the guards and the decoding, download exports the full groups, which use every photo. */
  lemma DownloadReachesExport(files: seq<ImgFile>, opts: ComposeOptions, decode: FileInfo -> Result<ImageSize, Thrown>,
                              encode: (DrawPlan, EncodeRequest) -> Option<Blob>,
                              archive: seq<ZipEntry> -> Result<Blob, Thrown>, urlError: Thrown)
    requires ValidShape(opts) && PositiveDecoder(decode)
    requires var out := DownloadSpec(files, opts, decode, encode, archive, urlError); !out.Warned? && !out.DecodeRejected?
    ensures var size := GroupSize(opts.rows, opts.cols);
      var groups := FullGroups(files, size);
      && size == opts.rows * opts.cols
      && |files| >= size && |files| % size == 0
      && Flatten(groups) == files && |groups| == |files| / size
      && (|groups| == 1 <==> |files| == size)
      && (forall g :: 0 <= g < |groups| ==> AllDecode(groups[g], decode))
      && DownloadSpec(files, opts, decode, encode, archive, urlError)
         == ExportSpec(groups, |files| / size, opts, decode, encode, archive, urlError)
  {
    var size := GroupSize(opts.rows, opts.cols);
    ShapeGroupSize(opts.rows, opts.cols);
    var n := |files|;
    assert n >= size && Remainder(n, size) == 0;
    var groups := FullGroups(files, size);
    FlattenFullGroups(files, size);
    assert DecodeAll(FilesOf(Flatten(groups)), decode).Success?;
    GroupsDecode(files, size, decode);
    OneGroupExactly(n, size);
  }

  /** One group gives the single file grid.<ext> holding that group's image. */
  lemma ExportSingle(groups: seq<seq<ImgFile>>, count: int, opts: ComposeOptions, decode: FileInfo -> Result<ImageSize, Thrown>,
                     encode: (DrawPlan, EncodeRequest) -> Option<Blob>,
                     archive: seq<ZipEntry> -> Result<Blob, Thrown>, urlError: Thrown)
    requires ValidShape(opts) && PositiveDecoder(decode)
    requires forall g :: 0 <= g < |groups| ==> AllDecode(groups[g], decode)
    requires ExportSpec(groups, count, opts, decode, encode, archive, urlError).Exported?
    ensures var out := ExportSpec(groups, count, opts, decode, encode, archive, urlError);
      out.file.SingleGrid? <==> |groups| == 1
    ensures |groups| == 1 ==>
      var out := ExportSpec(groups, count, opts, decode, encode, archive, urlError);
      var results := GroupResults(groups, opts, decode, encode);
      && results[0].Success? && results[0].value.Some?
      && out.file == SingleGrid("grid." + Extension(opts.output), results[0].value.value)
      && out.notice == Notice(SuccessNotice, "Exported 1 grid image.")
  {
  }

  /** Several groups give photo-grids.zip with entries grid-01, grid-02, ... holding the groups' images in order. */
  lemma ExportZip(groups: seq<seq<ImgFile>>, count: int, opts: ComposeOptions, decode: FileInfo -> Result<ImageSize, Thrown>,
                  encode: (DrawPlan, EncodeRequest) -> Option<Blob>,
                  archive: seq<ZipEntry> -> Result<Blob, Thrown>, urlError: Thrown)
    requires ValidShape(opts) && PositiveDecoder(decode) && |groups| != 1
    requires forall g :: 0 <= g < |groups| ==> AllDecode(groups[g], decode)
    requires ExportSpec(groups, count, opts, decode, encode, archive, urlError).Exported?
    ensures var out := ExportSpec(groups, count, opts, decode, encode, archive, urlError);
      var results := GroupResults(groups, opts, decode, encode);
      && out.file.name == "photo-grids.zip"
      && |out.file.entries| == |groups|
      && (forall k :: 0 <= k < |groups| ==>
            results[k].Success?
            && out.file.entries[k] == ZipEntry(EntryName(k + 1, Extension(opts.output)), results[k].value))
      && out.notice == Notice(SuccessNotice, "Exported " + IntToString(count) + " grids as a ZIP.")
  {
    var results := GroupResults(groups, opts, decode, encode);
    ZipEntriesSuccess(results, Extension(opts.output));
  }

  /** A failed export carries the error of the first group that failed to compose. */
  lemma ExportFailFast(groups: seq<seq<ImgFile>>, count: int, opts: ComposeOptions, decode: FileInfo -> Result<ImageSize, Thrown>,
                       encode: (DrawPlan, EncodeRequest) -> Option<Blob>,
                       archive: seq<ZipEntry> -> Result<Blob, Thrown>, urlError: Thrown)
    requires ValidShape(opts) && PositiveDecoder(decode)
    requires forall g :: 0 <= g < |groups| ==> AllDecode(groups[g], decode)
    requires ExportSpec(groups, count, opts, decode, encode, archive, urlError).ComposeFailed?
    ensures var results := GroupResults(groups, opts, decode, encode);
      var notice := ExportSpec(groups, count, opts, decode, encode, archive, urlError).notice;
      || (exists g :: 0 <= g < |groups| && results[g].Failure?
            && notice == Notice(ErrorNotice, DescribeError(results[g].error))
            && forall j :: 0 <= j < g ==> results[j].Success?)
      || (|groups| == 1 && results[0] == Success(None) && notice == Notice(ErrorNotice, DescribeError(urlError)))
  {
    var results := GroupResults(groups, opts, decode, encode);
    if |groups| != 1 {
      ZipEntriesFirstFailure(results, Extension(opts.output));
    }
  }

  /** When every group composes, the export does not fail; so a ZIP export either has every grid or none. */
  lemma ExportAllOrNothing(groups: seq<seq<ImgFile>>, count: int, opts: ComposeOptions, decode: FileInfo -> Result<ImageSize, Thrown>,
                           encode: (DrawPlan, EncodeRequest) -> Option<Blob>,
                           archive: seq<ZipEntry> -> Result<Blob, Thrown>, urlError: Thrown)
    requires ValidShape(opts) && PositiveDecoder(decode) && |groups| >= 1
    requires forall g :: 0 <= g < |groups| ==> AllDecode(groups[g], decode)
    ensures var results := GroupResults(groups, opts, decode, encode);
      ExportSpec(groups, count, opts, decode, encode, archive, urlError).ComposeFailed?
      <==> (exists g :: 0 <= g < |groups| && results[g].Failure?) || (|groups| == 1 && results[0] == Success(None))
  {
    var results := GroupResults(groups, opts, decode, encode);
    var out := ExportSpec(groups, count, opts, decode, encode, archive, urlError);
    if |groups| != 1 {
      ZipEntriesSuccess(results, Extension(opts.output));
    } else if results[0].Failure? {
      assert out.ComposeFailed?;
    } else {
      assert (exists g :: 0 <= g < |groups| && results[g].Failure?) <==> false;
    }
  }

  /**
   * download past the guards: collect the full groups, decode every photo,
   * then export them.
   */
  method ExportFiles(files: seq<ImgFile>, opts: ComposeOptions, decode: FileInfo -> Result<ImageSize, Thrown>,
                     encode: (DrawPlan, EncodeRequest) -> Option<Blob>,
                     archive: seq<ZipEntry> -> Result<Blob, Thrown>, urlError: Thrown) returns (outcome: DownloadOutcome)
    requires ValidShape(opts) && PositiveDecoder(decode)
    requires var size := GroupSize(opts.rows, opts.cols); |files| >= size && Remainder(|files|, size) == 0
    ensures outcome == DownloadSpec(files, opts, decode, encode, archive, urlError)
  {
    var size := GroupSize(opts.rows, opts.cols);
    var groups := CollectGroups(files, size);
    var decoded := DecodeAll(FilesOf(Flatten(groups)), decode);
    if decoded.Failure? {
      return DecodeRejected(decoded.error);
    }
    GroupsDecode(files, size, decode);
    outcome := ExportGroups(groups, |files| / size, opts, decode, encode, archive, urlError);
  }

  /**
   * The export step of download: one group is composed into grid.<ext>;
   * several are composed in order into the ZIP entries and handed to the archiver.
   */
  method ExportGroups(groups: seq<seq<ImgFile>>, count: int, opts: ComposeOptions, decode: FileInfo -> Result<ImageSize, Thrown>,
                      encode: (DrawPlan, EncodeRequest) -> Option<Blob>,
                      archive: seq<ZipEntry> -> Result<Blob, Thrown>, urlError: Thrown) returns (outcome: DownloadOutcome)
    requires ValidShape(opts) && PositiveDecoder(decode)
    requires forall g :: 0 <= g < |groups| ==> AllDecode(groups[g], decode)
    ensures outcome == ExportSpec(groups, count, opts, decode, encode, archive, urlError)
  {
    var ext := Extension(opts.output);
    if |groups| == 1 {
      var single := ComposeGrid(FramesOf(groups[0], decode), opts, encode);
      if single.Failure? {
        return ComposeFailed(Notice(ErrorNotice, DescribeError(single.error)));
      }
      if single.value.None? {
        return ComposeFailed(Notice(ErrorNotice, DescribeError(urlError)));
      }
      return Exported(SingleGrid("grid." + ext, single.value.value), Notice(SuccessNotice, "Exported 1 grid image."));
    }
    var composed := ComposeZipEntries(groups, opts, decode, encode);
    if composed.Failure? {
      return ComposeFailed(Notice(ErrorNotice, DescribeError(composed.error)));
    }
    var zip := archive(composed.value);
    if zip.Failure? {
      return ArchiveRejected(zip.error);
    }
    outcome := Exported(GridZip("photo-grids.zip", composed.value, zip.value),
                        Notice(SuccessNotice, "Exported " + IntToString(count) + " grids as a ZIP."));
  }

  // ---------------------------------------------------------------- the state

  /** The state useGridBuilder keeps: the files, the busy flag and the notice. */
  class GridBuilder {
    var files: seq<ImgFile>
    var busy: bool
    var notice: Option<Notice>

    /** Every rotation the builder hands out lies in 0..3. */
    predicate Valid()
      reads this
    {
      TurnsInRange(files)
    }

    constructor ()
      ensures files == [] && !busy && notice == None && Valid()
    {
      files := [];
      busy := false;
      notice := None;
    }

    /** addFiles: append the admitted files after the existing ones and clear the notice; nothing happens when none is admitted. */
    method AddFiles(list: seq<FileInfo>, ids: seq<string>)
      requires |ids| == |list| && Valid()
      modifies this
      ensures Valid() && busy == old(busy)
      ensures NewItems(list, ids) == [] ==> files == old(files) && notice == old(notice)
      ensures NewItems(list, ids) != [] ==> files == old(files) + NewItems(list, ids) && notice == None
    {
      var items := NewItems(list, ids);
      if items == [] {
        return;
      }
      files := files + items;
      notice := None;
    }

    /** removeFile: drop every item with the id, keep the rest in order, and clear the notice. */
    method RemoveFile(id: string)
      requires Valid()
      modifies this
      ensures Valid() && files == Without(old(files), id) && notice == None && busy == old(busy)
    {
      files := Without(files, id);
      notice := None;
    }

    /** clearFiles: no files and no notice. */
    method ClearFiles()
      modifies this
      ensures Valid() && files == [] && notice == None && busy == old(busy)
    {
      files := [];
      notice := None;
    }

    /** cycleFileRotation: one quarter turn more for the item with the id; the notice stays. */
    method CycleFileRotation(id: string)
      requires Valid()
      modifies this
      ensures Valid() && files == Cycled(old(files), id) && notice == old(notice) && busy == old(busy)
    {
      files := Cycled(files, id);
    }

    /** previewGroups for the current files. */
    method PreviewGroups(opts: ComposeOptions) returns (groups: seq<seq<ImgFile>>)
      ensures groups == FullGroups(files, GroupSize(opts.rows, opts.cols))
    {
      groups := PreviewGroupsOf(files, GroupSize(opts.rows, opts.cols));
    }

    /**
     * download: check the guards, mark busy, collect the groups, decode every
     * photo, then export one image or compose group by group into a ZIP,
     * stopping at the first failure; busy is cleared whatever happens after
     * the guards.
     */
    method Download(opts: ComposeOptions, decode: FileInfo -> Result<ImageSize, Thrown>,
                    encode: (DrawPlan, EncodeRequest) -> Option<Blob>,
                    archive: seq<ZipEntry> -> Result<Blob, Thrown>, urlError: Thrown) returns (outcome: DownloadOutcome)
      requires ValidShape(opts) && PositiveDecoder(decode)
      modifies this
      ensures outcome == DownloadSpec(old(files), opts, decode, encode, archive, urlError)
      ensures files == old(files)
      ensures outcome.Warned? ==> notice == Some(outcome.notice) && busy == old(busy)
      ensures outcome.ComposeFailed? || outcome.Exported? ==> notice == Some(outcome.notice) && !busy
      ensures outcome.DecodeRejected? || outcome.ArchiveRejected? ==> notice == old(notice) && !busy
    {
      var size := GroupSize(opts.rows, opts.cols);
      var n := |files|;
      if n < size {
        notice := Some(Notice(Warning, AtLeastWarning(size)));
        return Warned(notice.value);
      }
      if Remainder(n, size) != 0 {
        var missing := size - Remainder(n, size);
        notice := Some(Notice(Warning, MissingWarning(missing)));
        return Warned(notice.value);
      }
      busy := true;
      outcome := ExportFiles(files, opts, decode, encode, archive, urlError);
      if outcome.ComposeFailed? || outcome.Exported? {
        notice := Some(outcome.notice);
      }
      busy := false;
    }
  }
}
