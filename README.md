# grid-photo in Dafny

grid-photo is a browser tool. It lays photos out as printable grids of
`rows × cols` cells. Each cell is separated by a gap of a chosen colour, and
each photo is optionally turned by quarter turns. The canvas is sized in
centimetres at a given DPI. Photos are either fitted inside their cell
(contain) or cropped to fill it. A set of photos whose count is a multiple of
the grid size is exported as one grid image, or as a ZIP of numbered grids.
HEIC/HEIF photos are converted to JPEG when the browser cannot decode them.

This project models that core as Dafny values, functions, lemmas and a few
classes:

- **Layout engine** (`Grid`, src/utils/grid.ts):
  - canvas-size arithmetic and cell geometry;
  - the contain/crop scale and centring;
  - the rotation transform stack;
  - the count check and the "canvas too small" error;
  - the encoder request.
- **Batch arithmetic** (`Batch`): group size, remainder, missing-photo count, full groups, ZIP entry names, fail-fast ZIP assembly.
- **Builder hook** (`GridBuilder`, src/hooks/useGridBuilder.ts): a class holding the photo list, busy flag and notice, with its operations and the whole download flow. The flow covers the guards, grouping, decoding, the single-file and ZIP exports, and the notices.
- **Options hook** (`GridOptions`, src/hooks/useGridOptions.ts): a class holding the options and the text of the five numeric inputs. It covers revert, commit with sanitising, and the option patches that refresh the texts.
- **Settings handlers** (`CompositionSettings`): the integer and decimal input filters, and the gap, output and quality handlers.
- **Image loading** (`ImageFiles`, src/utils/image.ts): the supported-file tests, the HEIC MIME inference, and the conversion cache as a class.
- **Preview** (`Preview`, src/components/Preview/PreviewCanvas.tsx): the fit of a grid into the preview bounds and the render effect.
- **Legacy single-file app** (`LegacyUtils` for src/utils.ts, `LegacyApp` for src/App.tsx), proved to agree with the newer engine where the two coincide.
- **Supporting modules:**
  - `JsBuiltins`: `Math.round`, `Math.trunc`, `%`, `String(int)`, `parseInt`, `trim`, `padStart`, `replace`;
  - `Errors`: `describeError`;
  - `NumberUtils`: `clamp`, `formatNumberInput`;
  - `Options`: the defaults, the numeric field configuration and the `{...prev, ...patch}` merge;
  - `Platform`: files, blobs and decoded sizes.

Browser services appear as function-typed parameters. These are decoding an
image, `toBlob`, the HEIC converter and its dynamic import, JSZip's
`generateAsync`, `Number.parseFloat`, and `String` of a non-integer number.
The decoder is assumed to give positive sizes.

## Model

| member | source | states |
|---|---|---|
| Grid.ClampPositive | src/utils/grid.ts:3-5 | a finite positive value is kept; anything else (zero, negative, NaN, infinities) gives the fallback, so the result is positive when the fallback is |
| Grid.NormalizedTurns | src/utils/grid.ts:7-10 | result is in 0..3; a finite turn count is truncated and reduced modulo 4 with a non-negative result; a non-finite one gives 0 |
| Grid.Dims | src/utils/grid.ts:12-16 | an odd number of normalized quarter turns swaps width and height; an even number keeps the size |
| Grid.DimsPeriodFour | src/utils/grid.ts:12-16 | adding four quarter turns never changes the drawn dimensions |
| Grid.TransformInverse | src/utils/grid.ts:18-59 | the translate/rotate stack is invertible: applying it to the undone point gives back the point |
| Grid.QuarterBackAt | src/utils/grid.ts:36-42 | translate then rotate by -90° maps (x, y) to (a + y, b - x), and the inverse is explicit |
| Grid.HalfTurnAt | src/utils/grid.ts:44-50 | translate then rotate by 180° maps (x, y) to (a - x, b - y) |
| Grid.QuarterForwardAt | src/utils/grid.ts:53-58 | translate then rotate by +90° maps (x, y) to (a - y, b + x), and the inverse is explicit |
| Grid.DrawImageRotated | src/utils/grid.ts:18-59 | no transform iff no turn, and then the image goes straight into the destination; otherwise it is drawn at the origin, its sides swapped for an odd turn |
| Grid.DrawLandsInside | src/utils/grid.ts:18-59 | for every turn count, every point of the drawn image lands inside the destination rectangle |
| Grid.DrawReachesAll | src/utils/grid.ts:18-59 | every point of the destination rectangle is covered by some point of the drawn image |
| Grid.DrawFootprintExact | src/utils/grid.ts:18-59 | the rotated image's footprint is exactly the destination rectangle (a bijection with explicit preimage) |
| Grid.CanvasSide | src/utils/grid.ts:73-77 | a canvas side is at least 8 pixels |
| Grid.CanvasSideOfPositive | src/utils/grid.ts:73-77 | a side is max(8, round(cm / 2.54 × dpi)); a NaN size uses the default size and an infinite DPI uses 300 |
| Grid.DefaultCanvas | src/utils/grid.ts:73-77 | the default 15 × 10 cm at 300 DPI gives a 1772 × 1181 canvas |
| Grid.GeometryOf | src/utils/grid.ts:88-96 | cols cells plus cols - 1 gaps fill the width in exact arithmetic, and likewise for rows and the height |
| Grid.CellRect | src/utils/grid.ts:106-115 | each clipped cell is at least 1 × 1 pixel |
| Grid.PlacedSize | src/utils/grid.ts:103-105 | the scaled target size is at least 1 × 1 |
| Grid.Placements | src/utils/grid.ts:100-131 | one placement per photo |
| Grid.Plan | src/utils/grid.ts:66-131 | a plan exists iff the photo count is rows × cols and the gaps leave room; it has the computed canvas size and one placement per photo |
| Grid.CreateGridCanvas | src/utils/grid.ts:66-134 | the loop builds exactly the plan; a count error occurs iff the photo count differs from rows × cols; a success has sides of at least 8 and one placement per photo |
| Grid.PlanCountError | src/utils/grid.ts:68-71 | a wrong photo count fails with the count message naming expected and actual counts |
| Grid.PlanTooSmall | src/utils/grid.ts:88-94 | gaps that leave no positive cell fail with the "too small" error |
| Grid.PlanSuccess | src/utils/grid.ts:73-131 | with the right count and room for the gaps, the plan succeeds with the computed canvas and one placement per photo |
| Grid.FrameInGrid | src/utils/grid.ts:106-107 | photo i goes to row i / cols and column i % cols, both within the grid |
| Grid.CellsDoNotOverlap | src/utils/grid.ts:108-115 | a cell ends at or before the next one begins, on both axes |
| Grid.GridSpansCanvas | src/utils/grid.ts:95-115 | the first cell starts at 0 and the last cell ends at the canvas edge |
| Grid.ContainFits | src/utils/grid.ts:103 | in contain mode the scaled photo fits inside its cell |
| Grid.CropCovers | src/utils/grid.ts:103 | in crop mode the scaled photo covers its cell |
| Grid.PlacementDrawsDest | src/utils/grid.ts:124-126 | the photo is drawn at its centred target rectangle, with its rotation |
| Grid.CentreIsCentred | src/utils/grid.ts:124-125 | the two margins of a centred photo differ by at most one pixel |
| Grid.EncodeRequestFor | src/utils/grid.ts:140-146 | the encoder is asked for the chosen MIME type; quality is passed iff the output is JPEG, and then it is the chosen quality |
| Grid.ComposeGrid | src/utils/grid.ts:136-147 | composing fails iff planning fails, with the plan's error message; otherwise the result is the encoding of the plan |
| Errors.DescribeError | src/utils/error.ts:1-9 | a non-empty Error message, a thrown string, or a string message field is returned; anything else gives the fallback text |
| Errors.DescribeErrorEmpty | src/utils/error.ts:1-9 | the description is empty only for an empty Error message, an empty thrown string or an empty message field |
| NumberUtils.Clamp | src/utils/number.ts:5-10 | NaN gives min; the result lies in [min, max]; an in-range value is unchanged |
| NumberUtils.ClampIdempotent | src/utils/number.ts:5-10 | clamping a clamped value changes nothing |
| NumberUtils.ClampMonotone | src/utils/number.ts:5-10 | clamping preserves order |
| NumberUtils.FormatNumberInput | src/utils/number.ts:1-3 | an integer is shown as its decimal digits |
| NumberUtils.FormatIntegerReadsBack | src/utils/number.ts:1-3 | parseInt of a formatted integer gives the integer back |
| Options.Merge | src/hooks/useGridOptions.ts:98 | each field in the patch overrides, each absent field keeps the previous value, and an empty patch changes nothing |
| Options.WithInt | src/hooks/useGridOptions.ts:75-78 | storing an integer into one numeric key changes that key only: the other numeric keys, the gap, colour, output, quality and crop flag are kept |
| Options.WithReal | src/hooks/useGridOptions.ts:60-63 | storing a number into one numeric key changes that key only: the other numeric keys, the gap, colour, output, quality and crop flag are kept |
| Options.DefaultsWithinConfig | src/constants/options.ts:3-26 | every default numeric option lies within its field's bounds |
| JsBuiltins.ParseIntOfIntToString | src/hooks/useGridOptions.ts:79 | parseInt of String(n) gives n back for every integer |
| JsBuiltins.NatToStringInjective | src/hooks/useGridOptions.ts:9-13 | distinct integers have distinct decimal texts |
| Batch.GroupSize | src/hooks/useGridBuilder.ts:82-85 | the group size is rows × cols, or 1 when that product is below 1 |
| Batch.Remainder | src/hooks/useGridBuilder.ts:86-89 | the remainder lies in [0, size) and is the count modulo size |
| Batch.Missing | src/hooks/useGridBuilder.ts:111 | the shortfall lies in [0, size) and is 0 iff the count is a multiple of size |
| Batch.MissingCompletes | src/hooks/useGridBuilder.ts:133-137 | adding the missing photos completes exactly one more grid |
| Batch.FullGroups | src/hooks/useGridBuilder.ts:145-149 | there are count / size groups, and group k is the slice [k × size, (k + 1) × size) |
| Batch.FlattenFullGroups | src/hooks/useGridBuilder.ts:145-151 | concatenating the groups gives the photos up to the last full group, or all of them when the count divides |
| Batch.FullGroupsElement | src/hooks/useGridBuilder.ts:145-149 | element k of group g is photo g × size + k |
| Batch.FullGroupsCount | src/hooks/useGridBuilder.ts:90-97 | there are no groups iff count < size, and one group iff size ≤ count < 2 × size |
| Batch.CollectGroups | src/hooks/useGridBuilder.ts:145-149 | the stepping loop that keeps only full slices yields exactly the full groups |
| Batch.PreviewGroupsOf | src/hooks/useGridBuilder.ts:90-97 | the preview loop yields exactly the full groups |
| Batch.Extension | src/hooks/useGridBuilder.ts:162 | PNG gives "png" and JPEG gives "jpg" |
| Batch.Padded | src/hooks/useGridBuilder.ts:183 | padStart(2, '0') gives at least two digits |
| Batch.EntryName | src/hooks/useGridBuilder.ts:183 | entry names have the form grid-NN.ext |
| Batch.EntryNameInjective | src/hooks/useGridBuilder.ts:183-184 | distinct indices give distinct entry names, so no ZIP entry is overwritten |
| Batch.EntryNameShape | src/hooks/useGridBuilder.ts:183 | indices 1..9 are zero-padded, as in grid-01 |
| Batch.Plural | src/hooks/useGridBuilder.ts:128 | the "s" suffix is omitted exactly for 1 |
| Batch.DecodeAll | src/hooks/useGridBuilder.ts:114-122 | decoding succeeds iff every photo decodes, and then gives each photo's image in order; a failure carries one photo's error |
| Batch.ZipEntriesSuccess | src/hooks/useGridBuilder.ts:171-190 | the ZIP is assembled iff every group composed, with entry k named grid-(k+1) holding group k's blob |
| Batch.ZipEntriesFirstFailure | src/hooks/useGridBuilder.ts:186-189 | a failed assembly carries the error of a group that failed |
| Batch.ZipEntryNamesDistinct | src/hooks/useGridBuilder.ts:183-184 | the entries have pairwise distinct names |
| Batch.ZipEntriesPrefixFailure | src/hooks/useGridBuilder.ts:173-189 | the loop stops at the first failure: later groups do not matter |
| GridBuilder.NewItems | src/hooks/useGridBuilder.ts:27-40 | every new item is an image/* file with rotation 0, every image/* file gets its item, and there are none iff no file is an image |
| GridBuilder.NewItemsAppend | src/hooks/useGridBuilder.ts:29-38 | the items of two lists of files are the items of the first followed by those of the second: order is kept |
| GridBuilder.NewItemsOne | src/hooks/useGridBuilder.ts:29-38 | one file gives one unrotated item with its id iff its type starts with image/, otherwise none |
| GridBuilder.Without | src/hooks/useGridBuilder.ts:44-49 | removal keeps exactly the items with a different id |
| GridBuilder.WithoutAppend | src/hooks/useGridBuilder.ts:44-49 | removing from two lists joined is removing from each: the remaining items keep their order |
| GridBuilder.WithoutOne | src/hooks/useGridBuilder.ts:44-49 | one item is dropped iff it carries the id |
| GridBuilder.WithoutAbsent | src/hooks/useGridBuilder.ts:44-49 | removing an id not in the list changes nothing |
| GridBuilder.NextTurn | src/hooks/useGridBuilder.ts:65 | a turn in 0..3 advances to (t + 1) % 4, staying in 0..3 |
| GridBuilder.Cycled | src/hooks/useGridBuilder.ts:59-70 | only items with the id get the next turn; everything else is unchanged |
| GridBuilder.CycleFourTimes | src/hooks/useGridBuilder.ts:59-70 | four rotation clicks restore the list |
| GridBuilder.PreviewShortfall | src/hooks/useGridBuilder.ts:110 | the shortfall is 0 iff there is a full group; otherwise count + shortfall equals the group size |
| GridBuilder.ReadinessFlags | src/hooks/useGridBuilder.ts:108-112 | preview-ready iff there is a group; download-ready iff there is a group and the groups use every photo, iff both shortfalls are 0 |
| GridBuilder.OutputPx | src/hooks/useGridBuilder.ts:99-106 | the displayed pixel size is at least 8 |
| GridBuilder.OutputPxMatchesCanvas | src/hooks/useGridBuilder.ts:99-106 | the displayed pixel size equals the size the engine gives the canvas |
| GridBuilder.FilesOf | src/hooks/useGridBuilder.ts:151 | the flattened group's files, in order |
| GridBuilder.FramesOf | src/hooks/useGridBuilder.ts:156-159 | one decoded frame per item, with its rotation |
| GridBuilder.GroupResults | src/hooks/useGridBuilder.ts:173-181 | one compose result per group |
| GridBuilder.GroupsDecode | src/hooks/useGridBuilder.ts:151 | once the flattened photos decode, every photo of every group decodes |
| GridBuilder.ComposeZipEntries | src/hooks/useGridBuilder.ts:171-190 | the ZIP loop builds exactly the fail-fast assembly of the groups' results |
| GridBuilder.ExportSpec | src/hooks/useGridBuilder.ts:153-197 | the export step never warns or rejects on decoding, and the archiver can only reject with several groups |
| GridBuilder.ExportGroups | src/hooks/useGridBuilder.ts:153-197 | the export equals its specification: grid.<ext> for one group (an error notice when the encoder gave no blob), otherwise the fail-fast ZIP loop, the archiver and photo-grids.zip with the grid count |
| GridBuilder.ExportFiles | src/hooks/useGridBuilder.ts:142-197 | past the guards, collecting the groups, decoding every photo and exporting gives exactly the download specification |
| GridBuilder.DownloadWarnings | src/hooks/useGridBuilder.ts:125-140 | a warning occurs iff there is no full group or photos are left over, with the exact texts and the missing count |
| GridBuilder.DownloadReachesExport | src/hooks/useGridBuilder.ts:142-151 | past the guards, the groups use every photo, count = photos / size, and all decode |
| GridBuilder.DownloadSpec | src/hooks/useGridBuilder.ts:124-201 | anything but a warning needs at least rows × cols photos and a multiple of rows × cols |
| GridBuilder.ExportSingle | src/hooks/useGridBuilder.ts:153-169 | an export of one group is the single file grid.ext holding the blob the encoder gave, with the "Exported 1 grid image." notice |
| GridBuilder.ExportZip | src/hooks/useGridBuilder.ts:171-197 | several groups give photo-grids.zip with the groups' images in order, and the count in the notice |
| GridBuilder.ExportFailFast | src/hooks/useGridBuilder.ts:186-189 | a failed export reports the first group that failed, with its description, or, for one group whose encoder gave no blob, the download's TypeError |
| GridBuilder.ExportAllOrNothing | src/hooks/useGridBuilder.ts:171-197 | the export fails iff some group fails to compose or the only group's encoder gave no blob |
| GridBuilder.GridBuilder.constructor | src/hooks/useGridBuilder.ts:22-24 | no photos, not busy, no notice |
| GridBuilder.GridBuilder.AddFiles | src/hooks/useGridBuilder.ts:27-42 | the list becomes the old list followed by the new items (order kept, by NewItemsAppend and NewItemsOne) and the notice is cleared; with no images nothing changes |
| GridBuilder.GridBuilder.RemoveFile | src/hooks/useGridBuilder.ts:44-51 | the list becomes the old list without the id's items (order kept, by WithoutAppend and WithoutOne) and the notice is cleared |
| GridBuilder.GridBuilder.ClearFiles | src/hooks/useGridBuilder.ts:53-57 | the list and the notice are emptied |
| GridBuilder.GridBuilder.CycleFileRotation | src/hooks/useGridBuilder.ts:59-70 | the list becomes the cycled list; the notice is kept |
| GridBuilder.GridBuilder.PreviewGroups | src/hooks/useGridBuilder.ts:90-97 | the full groups of the current photos |
| GridBuilder.GridBuilder.Download | src/hooks/useGridBuilder.ts:124-201 | the outcome is the download specification; a warning or result notice is set; busy is cleared after every attempt past the guards |
| GridOptions.BuildNumericInputs | src/hooks/useGridOptions.ts:7-15 | all five keys are present, with String of the integers and the formatted centimetres |
| GridOptions.BuildNumericInputsReadBack | src/hooks/useGridOptions.ts:7-15 | parseInt of the rows, cols and dpi texts gives the option values back |
| GridOptions.ToDisplayValue | src/hooks/useGridOptions.ts:21-26 | float keys are formatted; integer keys show the rounded value |
| GridOptions.DisplayMatchesBuild | src/hooks/useGridOptions.ts:21-26 | the display value of an option equals its text in the built map |
| GridOptions.Reverted | src/hooks/useGridOptions.ts:32-41 | only the key's text is reset to the text the current options give |
| GridOptions.SanitizeFloat | src/hooks/useGridOptions.ts:59 | the result is within the field's bounds, and a value at or above the minimum is kept |
| GridOptions.SanitizeInt | src/hooks/useGridOptions.ts:73-74 | the result is within the field's bounds, and an in-bounds value is kept |
| GridOptions.CommitRevert | src/hooks/useGridOptions.ts:45-72 | blank text, non-finite float text and non-numeric integer text revert the text and keep the options |
| GridOptions.CommitFloat | src/hooks/useGridOptions.ts:53-65 | a float commit keeps the other fields' texts and values and every non-numeric option, and leaves an in-bounds field in bounds |
| GridOptions.CommitInt | src/hooks/useGridOptions.ts:68-79 | an integer commit keeps the same as a float commit |
| GridOptions.Commit | src/hooks/useGridOptions.ts:43-82 | any commit of one field keeps the other fields' texts and values and every non-numeric option, and never moves the field out of its bounds |
| GridOptions.CommitAcceptFloat | src/hooks/useGridOptions.ts:53-65 | a finite float (comma accepted) stores max(min, parsed); other keys are kept; the text shows the stored value |
| GridOptions.CommitAcceptInt | src/hooks/useGridOptions.ts:68-79 | an integer is clamped to the bounds and stored; other keys are kept; the text is String of it and parses back to it |
| GridOptions.CommitIntShows | src/hooks/useGridOptions.ts:68-79 | after an integer commit the text parses back to the stored value |
| GridOptions.CommitShownIntStable | src/hooks/useGridOptions.ts:68-79 | committing the text an in-bounds integer option shows changes nothing |
| GridOptions.CommitIntIdempotent | src/hooks/useGridOptions.ts:43-82 | committing an integer field twice gives the same state as committing once |
| GridOptions.MergeNumeric | src/hooks/useGridOptions.ts:98 | a numeric key in the patch takes the patch's value; one absent keeps the previous value |
| GridOptions.RefreshedInputs | src/hooks/useGridOptions.ts:100-113 | refreshing keeps the set of keys |
| GridOptions.RefreshWithoutNumericKeys | src/hooks/useGridOptions.ts:100-113 | a patch without numeric keys leaves the texts unchanged |
| GridOptions.RefreshAgreesWithBuild | src/hooks/useGridOptions.ts:103-111 | a patched numeric key shows the display value of the merged options, and others keep their text |
| GridOptions.GridOptionsHook.constructor | src/hooks/useGridOptions.ts:18-19 | the options are the defaults and the texts are built from them |
| GridOptions.GridOptionsHook.UpdateInputValue | src/hooks/useGridOptions.ts:28-30 | only the key's text changes |
| GridOptions.GridOptionsHook.RevertInputValue | src/hooks/useGridOptions.ts:32-41 | the texts become the reverted map, identical when the text already matches |
| GridOptions.GridOptionsHook.CommitNumericValue | src/hooks/useGridOptions.ts:43-82 | the new state is the commit specification of the old state |
| GridOptions.GridOptionsHook.UpdateOptions | src/hooks/useGridOptions.ts:95-119 | the options are merged with the patch and the texts refreshed for the patched numeric keys |
| CompositionSettings.ClampRange | src/components/Settings/CompositionSettings.tsx:30-31 | the result is at most hi, at least lo when lo ≤ hi, an in-range value is kept, and values below or above go to the bounds |
| CompositionSettings.ClampRangeAgrees | src/components/Settings/CompositionSettings.tsx:30-31 | this clamp agrees with the shared clamp utility on finite values |
| CompositionSettings.FilterIntegerInput | src/components/Settings/CompositionSettings.tsx:33 | the result holds only digits and is no longer than the input |
| CompositionSettings.FilterIntegerAppend | src/components/Settings/CompositionSettings.tsx:33 | the filter distributes over concatenation |
| CompositionSettings.FilterIntegerOfDigits | src/components/Settings/CompositionSettings.tsx:33 | an all-digit text is unchanged |
| CompositionSettings.FilterIntegerIdempotent | src/components/Settings/CompositionSettings.tsx:33 | filtering twice equals filtering once |
| CompositionSettings.FilterDecimal | src/components/Settings/CompositionSettings.tsx:35-49 | the result is no longer than the input and holds only digits and separators |
| CompositionSettings.FilterDecimalNoSeparator | src/components/Settings/CompositionSettings.tsx:35-49 | without a '.' or ',' the decimal filter is the integer filter |
| CompositionSettings.FilterDecimalSplit | src/components/Settings/CompositionSettings.tsx:35-49 | for a first separator c, the result is the digits before, then c, then the digits after |
| CompositionSettings.FilterDecimalKeepsFirstSeparator | src/components/Settings/CompositionSettings.tsx:35-49 | exactly the first separator survives, between the digits around it |
| CompositionSettings.FilterDecimalShaped | src/components/Settings/CompositionSettings.tsx:35-49 | the result is digits with at most one separator |
| CompositionSettings.FilterDecimalWithoutSeparator | src/components/Settings/CompositionSettings.tsx:35-49 | removing the kept separator leaves exactly the integer filter of the input |
| CompositionSettings.FilterDecimalIdempotent | src/components/Settings/CompositionSettings.tsx:35-49 | filtering twice equals filtering once |
| CompositionSettings.FilterDecimalInput | src/components/Settings/CompositionSettings.tsx:35-49 | the character loop with its decimalSeen flag computes the decimal filter |
| CompositionSettings.GapChange | src/components/Settings/CompositionSettings.tsx:67-75 | a patch sets only the gap, within 0..120, and differing from the current gap; unparsable text gives no patch |
| CompositionSettings.GapChangeApplied | src/components/Settings/CompositionSettings.tsx:67-75 | after the handler the gap is the clamped parsed value, or unchanged for unparsable text; no other option changes |
| CompositionSettings.OutputChange | src/components/Settings/CompositionSettings.tsx:81-85 | a patch is issued iff the format differs, and it sets only the output |
| CompositionSettings.OutputChangeApplied | src/components/Settings/CompositionSettings.tsx:81-85 | after the handler the output is the chosen format and nothing else changes |
| CompositionSettings.QualityChange | src/components/Settings/CompositionSettings.tsx:87-93 | a patch is issued iff the parsed quality is finite and differs, and it sets only the quality |
| CompositionSettings.QualityChangeApplied | src/components/Settings/CompositionSettings.tsx:87-93 | after the handler the quality is the finite parsed value or unchanged, and nothing else changes |
| ImageFiles.InferHeicMime | src/utils/image.ts:22-28 | image/heif iff the lower-cased name ends in .heif, otherwise image/heic |
| ImageFiles.EndsWithAny | src/utils/image.ts:34 | true iff the name ends with one of the extensions |
| ImageFiles.HeicTestIgnoresCase | src/utils/image.ts:15-20 | the HEIC test lower-cases the MIME type and the name, so it ignores letter case |
| ImageFiles.SupportedTestIgnoresCase | src/utils/image.ts:30-35 | the supported-file test ignores letter case in the same way |
| ImageFiles.ImageMimeSupported | src/utils/image.ts:30-32 | any image/* file is supported |
| ImageFiles.SupportedByName | src/utils/image.ts:30-35 | a file with a known image extension is supported whatever its MIME type |
| ImageFiles.HeicNameIsSupported | src/utils/image.ts:15-35 | a .heic/.heif name is recognised as HEIC and as supported |
| ImageFiles.ConvertInputFor | src/utils/image.ts:89-92 | the converter gets the original file iff its MIME type mentions "hei", otherwise a blob retyped with the inferred MIME |
| ImageFiles.Normalized | src/utils/image.ts:98 | a single blob is kept; from an array the first is kept, and none iff the array is empty |
| ImageFiles.LoaderAfterRequest | src/utils/image.ts:85-88 | the converter module is requested at most once, and a failed import stays failed |
| ImageFiles.HeicConversions.constructor | src/utils/image.ts:76-77 | empty cache, converter not yet requested |
| ImageFiles.HeicConversions.ConvertHeicToJpeg | src/utils/image.ts:79-101 | a cached blob is returned as is; otherwise import, convert and cache the kept blob; a failure rejects and leaves the cache; the converter is called iff there is no cached blob and the module loaded |
| ImageFiles.HeicConversions.FileToImage | src/utils/image.ts:103-119 | decode a cached conversion, else the raw file; only a HEIC file whose raw decode failed is converted, and then the converter is called once; an empty conversion rejects with createObjectURL's TypeError; other failures are rethrown |
| ImageFiles.HeicConversions.ReloadUsesCache | src/utils/image.ts:79-119 | after a HEIC file is converted to a blob, loading it again decodes the cached blob; the converter is called once in all |
| ImageFiles.HeicConversions.ReloadAfterEmptyConverts | src/utils/image.ts:79-119 | an empty conversion is stored as undefined, which reads as a miss: both loads reject with createObjectURL's TypeError and the file is converted again (two converter calls) |
| LegacyUtils.LegacyDims | src/utils.ts:44-47 | rotate swaps the sides, and this equals the engine's dimensions at one quarter turn |
| LegacyUtils.LegacyQuarterBackAt | src/utils.ts:55-60 | the legacy rotation maps points as a -90° turn about the destination's corner |
| LegacyUtils.LegacyDrawImageRotated | src/utils.ts:49-62 | no transform iff no rotation; unrotated the image goes straight into the destination, rotated it is drawn at the origin with its sides swapped |
| LegacyUtils.LegacyRotationIsQuarterTurn | src/utils.ts:49-62 | the legacy rotation draws exactly as the engine's one-quarter-turn draw |
| LegacyUtils.LegacyDrawFootprintExact | src/utils.ts:49-62 | the legacy drawn footprint is exactly the destination rectangle |
| LegacyUtils.LegacyPlacements | src/utils.ts:105-135 | one placement per image |
| LegacyUtils.LegacyPlan | src/utils.ts:68-138 | a plan exists iff the image count is rows × cols and the gaps leave room; it has the computed canvas size and one placement per image |
| LegacyUtils.LegacyCreateGridCanvas | src/utils.ts:68-138 | the loop builds the legacy plan; a count error occurs iff the count differs; a success has sides of at least 8 |
| LegacyUtils.FramesFor | src/utils.ts:92 | one decoded frame per image |
| LegacyUtils.LegacyPlacementAgrees | src/utils.ts:105-130 | a legacy placement has the engine's cell, destination and target in contain mode |
| LegacyUtils.LegacyPlanAgrees | src/utils.ts:68-138 | the legacy plan fails or succeeds as the engine's plan does, with the same canvas and cells |
| LegacyUtils.LegacyComposeGrid | src/utils.ts:140-155 | composing fails iff the legacy plan fails; otherwise the result is the encoding of the plan |
| LegacyUtils.LegacyFileToImage | src/utils.ts:22-42 | non-HEIC files are decoded raw; HEIC files are always converted first, import and conversion errors are propagated, and an empty conversion rejects with createObjectURL's TypeError |
| LegacyUtils.LegacyHeicNeverRaw | src/utils.ts:25-33 | the legacy loader never decodes a HEIC file raw |
| LegacyApp.LegacyDescribeError | src/App.tsx:7-12 | Error message, thrown string, String(message field), or the fallback text |
| LegacyApp.DescribeErrorsAgree | src/App.tsx:7-12 | the legacy and current descriptions agree except on a non-string message field |
| LegacyApp.GridCountInput | src/App.tsx:139 | the result is in 1..6; unparsable text gives 1, and larger or smaller values go to the bounds |
| LegacyApp.GridCountInputReadsBack | src/App.tsx:139 | the text of a count in 1..6 reads back as that count |
| LegacyApp.SizeInput | src/App.tsx:170-171 | a finite size becomes max(1, size); a non-finite one keeps the current size |
| LegacyApp.DpiInput | src/App.tsx:201-202 | a parsed DPI is clamped to 72..1200; unparsable text keeps the current DPI |
| LegacyApp.GridCountWithinConfig | src/App.tsx:138-153 | legacy rows and cols inputs respect the current field bounds |
| LegacyApp.SizeWithinConfig | src/App.tsx:169-187 | legacy size inputs respect the current field bounds |
| LegacyApp.DpiWithinConfig | src/App.tsx:200-203 | the legacy DPI input respects the current field bounds |
| LegacyApp.FirstGroup | src/App.tsx:48-50 | a first group exists iff there are at least size photos, and it is the first full group |
| LegacyApp.ImagesOf | src/App.tsx:77 | the decoded images, one per photo in order |
| LegacyApp.LegacyGroupResults | src/App.tsx:79-86 | one compose result per group |
| LegacyApp.LegacyGroupsDecode | src/App.tsx:77 | once all photos decode, every photo of every group decodes |
| LegacyApp.LegacyDownloadGuards | src/App.tsx:59-77 | an alert occurs iff there is no full group or photos are left over, with the exact texts |
| LegacyApp.LegacyDownloadSpec | src/App.tsx:59-101 | anything but an alert needs at least rows × cols photos and a multiple of rows × cols |
| LegacyApp.LegacyExportFiles | src/App.tsx:70-96 | past the alerts, collecting the groups, decoding every photo and composing the ZIP gives exactly the legacy download specification |
| LegacyApp.LegacyAlwaysZips | src/App.tsx:78-96 | the legacy export always produces foto-grids.zip, one entry per group in order |
| LegacyApp.LegacyFailFast | src/App.tsx:79-86 | a failed export alerts the description of a group that failed, with every earlier group successful |
| LegacyApp.LegacyPreviewSpec | src/App.tsx:252-301 | the 360 × 200 placeholder asks for rows × cols photos exactly when the first group is missing or short; a complete group left undrawn keeps the "Rendering preview…" caption |
| LegacyApp.LegacyPreviewDrawsIff | src/App.tsx:273-301 | the legacy grid is drawn iff the group holds exactly rows × cols photos, all of them decode, and the gutters leave a positive usable area |
| LegacyApp.LegacyPreviewFits | src/App.tsx:288-301 | a drawn legacy preview fits 480 × 360 inside a canvas of at least 320 × 240, without upscaling |
| LegacyApp.LegacyApp.constructor | src/App.tsx:15-28 | no photos, not busy, the legacy defaults |
| LegacyApp.ImageFilesOf | src/App.tsx:30-33 | the kept files all have an image/ type and come from the list, and every image/ file of the list is kept |
| LegacyApp.ImageFilesAppend | src/App.tsx:30-33 | filtering two lists joined is filtering each: order is kept |
| LegacyApp.ImageFilesOne | src/App.tsx:30-33 | one file is kept iff its type starts with image/ |
| LegacyApp.LegacyApp.OnFilesAdded | src/App.tsx:30-33 | the photos become the old photos followed by the image/ files of the list, in order; options and busy are kept |
| LegacyApp.LegacyApp.RemoveAll | src/App.tsx:44 | the photo list is emptied |
| LegacyApp.LegacyApp.RowsChanged | src/App.tsx:138-141 | only rows changes, to the sanitised count |
| LegacyApp.LegacyApp.ColsChanged | src/App.tsx:150-153 | only cols changes, to the sanitised count |
| LegacyApp.LegacyApp.WidthChanged | src/App.tsx:169-172 | only the width changes, to the sanitised size |
| LegacyApp.LegacyApp.HeightChanged | src/App.tsx:184-187 | only the height changes, to the sanitised size |
| LegacyApp.LegacyApp.DpiChanged | src/App.tsx:200-203 | only the DPI changes, to the sanitised DPI |
| LegacyApp.LegacyApp.RotateChanged | src/App.tsx:210 | only the rotate flag changes |
| LegacyApp.LegacyApp.DownloadAll | src/App.tsx:59-101 | the outcome is the legacy download specification; photos and options are kept; busy is cleared after every attempt past the guards |
| LegacyApp.LegacyComposeEntries | src/App.tsx:78-91 | the legacy ZIP loop builds exactly the fail-fast assembly of the groups' results |
| Preview.NonZero | src/components/Preview/PreviewCanvas.tsx:81-82 | `side \|\| 1` is at least 1 and keeps a non-zero side |
| Preview.FitPreview | src/components/Preview/PreviewCanvas.tsx:81-92 | the scale is the common preview scale of the non-zero sides, so ≤ 1 and ≤ both bound ratios; each drawn side is its source side scaled, rounded and at least 1; canvas ≥ 320 × 240 and ≥ the drawn size; image inside the canvas |
| Preview.PreviewScale | src/components/Preview/PreviewCanvas.tsx:83 | the common scale is min(maxW / sw, maxH / sh, 1): at most each of the three and equal to one of them |
| Preview.FitNeverUpscales | src/components/Preview/PreviewCanvas.tsx:83-85 | the drawn sides are never larger than the source |
| Preview.FitWithinBounds | src/components/Preview/PreviewCanvas.tsx:83-85 | the drawn sides fit the maximum bounds |
| Preview.FitKeepsSmallSource | src/components/Preview/PreviewCanvas.tsx:83-85 | a source that already fits is drawn at its own size |
| Preview.FitCentred | src/components/Preview/PreviewCanvas.tsx:90-91 | the margins on each axis differ by at most one pixel |
| Preview.RenderSpec | src/components/Preview/PreviewCanvas.tsx:34-92 | with nothing drawn, the canvas is the placeholder at the maximum size |
| Preview.RenderDrawsIff | src/components/Preview/PreviewCanvas.tsx:58-92 | the grid is drawn iff ready with a complete group whose photos all decode and whose gutters leave a positive usable width and height; otherwise the placeholder stays |
| Preview.RenderDrawnInside | src/components/Preview/PreviewCanvas.tsx:81-92 | a drawn grid lies inside a canvas of at least 320 × 240 and is no larger than the grid canvas |
| Preview.PreviewCanvas.Prime | src/components/Preview/PreviewCanvas.tsx:38-56 | the canvas is reset to the placeholder |
| Preview.PreviewCanvas.Render | src/components/Preview/PreviewCanvas.tsx:28-93 | the canvas state becomes the render specification |

## Left out

- Canvas pixels are not modelled: filling, clipping, drawing, separator colour and image smoothing. Drawing is modelled as the list of transforms and the destination rectangle.
- `rows`/`cols` below 1 are excluded by `ValidShape`. Every caller passes 1..6 (field configuration and legacy inputs), so the engine never sees them.
- Decoded images of size 0 are excluded by `PositiveDecoder`. Browsers do not decode to empty bitmaps.
- `toLowerCase` is modelled on ASCII letters only; Unicode case mapping is not modelled.
- `Number.parseFloat` and `String` of a non-integer number are oracles given as parameters. Only integers get a concrete decimal text.
- `parseInt` is exact on unbounded integers. Loss of precision above 2^53 and overflow to Infinity are not modelled.
- Concurrency is not modelled: Promise.all decodes in parallel, but the model sees one result, the first failing photo's error. The order of rejections is not modelled.
- Memoisation of decoded images on items (`item.img`) is not modelled. The decoder is a deterministic function, so re-decoding gives the same image.
- Effects outside the model: `createPreviewUrl`/`revokePreviewUrls`/`URL.revokeObjectURL`, the anchor click of `triggerFileDownload`, the legacy anchor click, `alert`, `waitForImageLoad` and the effect's cancelled flag.
- `?? Number.POSITIVE_INFINITY` for a missing maximum is not modelled: every integer field has a maximum.
- Not modelled, as pass-through patches of one field covered by `Options.Merge`: `handleCropChange`, `handleSeparatorColorChange`, and the legacy gap range, quality range, separator colour and output radio (src/App.tsx:215-229).
- `handleNumericKeyDown` is not modelled separately: Enter calls `commitNumericValue`, which is modelled.
- LegacyApp.LegacyPreviewSpec: the legacy preview is modelled as a value, not a canvas class.
- The TypeError `URL.createObjectURL(undefined)` throws for an empty HEIC conversion (src/utils/image.ts:64, src/utils.ts:35) is the parameter `urlError` of `ImageFiles.HeicConversions.FileToImage` and `LegacyUtils.LegacyFileToImage`: its message is chosen by the browser.
- Grid.CanvasSide, Grid.CanvasSideOfPositive, Grid.GeometryOf, Grid.CellRect, Grid.PlacedSize, Grid.CentreIsCentred, GridBuilder.OutputPx, Preview.FitPreview: JavaScript numbers are modelled as exact `real`s, not IEEE doubles. A value within rounding error of a .5 boundary may round differently in a browser; for example 1.0795 cm at 300 DPI is 127.49999999999999 in doubles, so the browser gives 127 where the model gives 128. The bounds, the non-overlap of cells and the exact fill are proved for exact arithmetic.
- Grid.Frame: `rotationQuarterTurns ?? 0` (src/utils/grid.ts:87,126) for a missing count is not modelled, because every caller passes a number; the field is a `JsNumber`.
- LegacyApp.LegacyApp.DownloadAll: its decoder parameter stands for the legacy `fileToImage`, whose behaviour is `LegacyUtils.LegacyFileToImage`.
- The TypeError `URL.createObjectURL(null)` throws in `triggerFileDownload` (src/utils/download.ts:2) is the parameter `urlError` of `GridBuilder.ExportSpec` and its callers: its message is chosen by the browser.
- GridBuilder.GridBuilder.Download: a rejected `ensureImages` or ZIP generation leaves the notice as it was. The rejection leaves the hook unhandled, which is not modelled.
- The legacy `outputWidthPx` (src/App.tsx:52-53) is the same formula as `GridBuilder.OutputPx` and is not modelled twice. `singleFileResult` is only a derived flag, modelled as a predicate without a row.
- React's `return prev` state identity is modelled as value equality.
- The HTML canvas element's initial 300 × 150 size is the platform default, not something the component computes.
