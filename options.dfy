/**
 * The composition options (src/types/options.ts) and their constants
 * (src/constants/options.ts): the defaults and the bounds of the five
 * numeric fields.
 */
module Options {
  import opened Wrappers

  datatype OutputFormat = Jpeg | Png {
    /** The MIME string the option holds. */
    function Mime(): string {
      match this
      case Jpeg => "image/jpeg"
      case Png => "image/png"
    }
  }

  /**
   * ComposeOptions. Rows, columns, gap and dpi are integral in every state
   * the application reaches; the physical size and quality are finite numbers.
   */
  datatype ComposeOptions = ComposeOptions(
    gapPx: int,
    separatorColor: string,
    output: OutputFormat,
    quality: real,
    rows: int,
    cols: int,
    widthCm: real,
    heightCm: real,
    dpi: int,
    cropToFill: bool)

  /** Partial<ComposeOptions>: the keys a patch carries are the ones present (Some). */
  datatype Patch = Patch(
    gapPx: Option<int>,
    separatorColor: Option<string>,
    output: Option<OutputFormat>,
    quality: Option<real>,
    rows: Option<int>,
    cols: Option<int>,
    widthCm: Option<real>,
    heightCm: Option<real>,
    dpi: Option<int>,
    cropToFill: Option<bool>)

  const EmptyPatch := Patch(None, None, None, None, None, None, None, None, None, None)

  /** `{ ...prev, ...patch }`: every key present in the patch overrides the previous value. */
  function Merge(prev: ComposeOptions, patch: Patch): (next: ComposeOptions)
    ensures patch == EmptyPatch ==> next == prev
    ensures patch.gapPx.Some? ==> next.gapPx == patch.gapPx.value
    ensures patch.gapPx.None? ==> next.gapPx == prev.gapPx
    ensures patch.output.Some? ==> next.output == patch.output.value
    ensures patch.output.None? ==> next.output == prev.output
    ensures patch.quality.Some? ==> next.quality == patch.quality.value
    ensures patch.quality.None? ==> next.quality == prev.quality
    ensures patch.separatorColor.Some? ==> next.separatorColor == patch.separatorColor.value
    ensures patch.separatorColor.None? ==> next.separatorColor == prev.separatorColor
    ensures patch.cropToFill.Some? ==> next.cropToFill == patch.cropToFill.value
    ensures patch.cropToFill.None? ==> next.cropToFill == prev.cropToFill
  {
    ComposeOptions(
      patch.gapPx.GetOr(prev.gapPx),
      patch.separatorColor.GetOr(prev.separatorColor),
      patch.output.GetOr(prev.output),
      patch.quality.GetOr(prev.quality),
      patch.rows.GetOr(prev.rows),
      patch.cols.GetOr(prev.cols),
      patch.widthCm.GetOr(prev.widthCm),
      patch.heightCm.GetOr(prev.heightCm),
      patch.dpi.GetOr(prev.dpi),
      patch.cropToFill.GetOr(prev.cropToFill))
  }

  /** DEFAULT_OPTIONS. */
  const DefaultOptions := ComposeOptions(8, "#ffffff", Jpeg, 0.92, 1, 2, 15.0, 10.0, 300, false)

  // ---------------------------------------------------------------- numeric fields

  /** NumericOptionKey: the options edited through a text field. */
  datatype NumericKey = Rows | Cols | WidthCm | HeightCm | Dpi

  /** The keys in the order the source lists them. */
  const NumericKeys: seq<NumericKey> := [Rows, Cols, WidthCm, HeightCm, Dpi]

  datatype FieldKind = IntField | FloatField

  datatype FieldConfig = FieldConfig(kind: FieldKind, min: int, max: Option<int>)

  /** NUMERIC_FIELD_CONFIG. */
  function NumericFieldConfig(key: NumericKey): FieldConfig {
    match key
    case Rows => FieldConfig(IntField, 1, Some(6))
    case Cols => FieldConfig(IntField, 1, Some(6))
    case WidthCm => FieldConfig(FloatField, 1, None)
    case HeightCm => FieldConfig(FloatField, 1, None)
    case Dpi => FieldConfig(IntField, 72, Some(1200))
  }

  /** The value an option holds under a numeric key. */
  function NumericValue(o: ComposeOptions, key: NumericKey): real {
    match key
    case Rows => o.rows as real
    case Cols => o.cols as real
    case WidthCm => o.widthCm
    case HeightCm => o.heightCm
    case Dpi => o.dpi as real
  }

  /** The options with the integer field `key` set to n. */
  function WithInt(o: ComposeOptions, key: NumericKey, n: int): (r: ComposeOptions)
    requires NumericFieldConfig(key).kind == IntField
    ensures NumericValue(r, key) == n as real
    ensures forall k :: k != key ==> NumericValue(r, k) == NumericValue(o, k)
    ensures r.gapPx == o.gapPx && r.separatorColor == o.separatorColor && r.output == o.output
    ensures r.quality == o.quality && r.cropToFill == o.cropToFill
  {
    match key
    case Rows => o.(rows := n)
    case Cols => o.(cols := n)
    case Dpi => o.(dpi := n)
  }

  /** The options with the float field `key` set to v. */
  function WithReal(o: ComposeOptions, key: NumericKey, v: real): (r: ComposeOptions)
    requires NumericFieldConfig(key).kind == FloatField
    ensures NumericValue(r, key) == v
    ensures forall k :: k != key ==> NumericValue(r, k) == NumericValue(o, k)
    ensures r.gapPx == o.gapPx && r.separatorColor == o.separatorColor && r.output == o.output
    ensures r.quality == o.quality && r.cropToFill == o.cropToFill
  {
    match key
    case WidthCm => o.(widthCm := v)
    case HeightCm => o.(heightCm := v)
  }

  /** A value respects its field's configuration: at least min, at most max, integral for int fields. */
  predicate WithinConfig(key: NumericKey, v: real) {
    var c := NumericFieldConfig(key);
    && c.min as real <= v
    && (c.max.Some? ==> v <= c.max.value as real)
    && (c.kind == IntField ==> v.Floor as real == v)
  }

  /** Every numeric default satisfies its own field configuration. */
  lemma DefaultsWithinConfig()
    ensures forall key :: WithinConfig(key, NumericValue(DefaultOptions, key))
  {
    forall key ensures WithinConfig(key, NumericValue(DefaultOptions, key)) {
      match key
      case Rows =>
      case Cols =>
      case WidthCm =>
      case HeightCm =>
      case Dpi => assert (300.0).Floor == 300;
    }
  }
}
