/**
 * The options hook of src/hooks/useGridOptions.ts: the composition options
 * together with the text shown in each numeric field, the commit of a
 * field's text (trimmed, parsed, bounded, or reverted), and the merge of a
 * patch that refreshes the text of the numeric fields it touches.
 * parseFloat and the text of a non-integral number are given as functions.
 */
module GridOptions {
  import opened Wrappers
  import opened JsBuiltins
  import opened Options
  import opened NumberUtils

  /** The text of every numeric field. */
  type InputMap = map<NumericKey, string>

  predicate Total(inputs: InputMap) {
    forall k: NumericKey :: k in inputs
  }

  /** A map holding the five keys holds every key. */
  lemma FiveKeysTotal(inputs: InputMap)
    requires Rows in inputs && Cols in inputs && WidthCm in inputs && HeightCm in inputs && Dpi in inputs
    ensures Total(inputs)
  {
    forall k: NumericKey ensures k in inputs {
      match k
      case Rows =>
      case Cols =>
      case WidthCm =>
      case HeightCm =>
      case Dpi =>
    }
  }

  /** buildNumericInputs: String() of the integer fields, formatNumberInput of the centimetres. */
  function BuildNumericInputs(o: ComposeOptions, numberText: real -> string): (m: InputMap)
    ensures Total(m)
    ensures m[Rows] == IntToString(o.rows) && m[Cols] == IntToString(o.cols) && m[Dpi] == IntToString(o.dpi)
    ensures m[WidthCm] == FormatNumberInput(o.widthCm, numberText) && m[HeightCm] == FormatNumberInput(o.heightCm, numberText)
  {
    var m := map[Rows := IntToString(o.rows), Cols := IntToString(o.cols),
                 WidthCm := FormatNumberInput(o.widthCm, numberText), HeightCm := FormatNumberInput(o.heightCm, numberText),
                 Dpi := IntToString(o.dpi)];
    FiveKeysTotal(m);
    m
  }

  /** The text of an integer field reads back as the option's value. */
  lemma BuildNumericInputsReadBack(o: ComposeOptions, numberText: real -> string, key: NumericKey)
    requires NumericFieldConfig(key).kind == IntField
    ensures var m := BuildNumericInputs(o, numberText);
      ParseInt(m[key]).Some? && ParseInt(m[key]).value as real == NumericValue(o, key)
  {
    match key
    case Rows => ParseIntOfIntToString(o.rows);
    case Cols => ParseIntOfIntToString(o.cols);
    case Dpi => ParseIntOfIntToString(o.dpi);
  }

  /** toDisplayValue: formatNumberInput for the centimetres, String(Math.round(value)) for the integer fields. */
  function ToDisplayValue(key: NumericKey, value: real, numberText: real -> string): (s: string)
    ensures NumericFieldConfig(key).kind == FloatField ==> s == FormatNumberInput(value, numberText)
    ensures NumericFieldConfig(key).kind == IntField ==> s == IntToString(Round(value))
  {
    if key == WidthCm || key == HeightCm then FormatNumberInput(value, numberText) else IntToString(Round(value))
  }

  /** The displayed form of an option's current value is the text buildNumericInputs gives it. */
  lemma DisplayMatchesBuild(o: ComposeOptions, key: NumericKey, numberText: real -> string)
    ensures ToDisplayValue(key, NumericValue(o, key), numberText) == BuildNumericInputs(o, numberText)[key]
  {
    match key
    case Rows => RoundOfInteger(o.rows);
    case Cols => RoundOfInteger(o.cols);
    case Dpi => RoundOfInteger(o.dpi);
    case WidthCm =>
    case HeightCm =>
  }

  // ---------------------------------------------------------------- commit

  /** The state the hook keeps: the options and the field texts. */
  datatype OptionsState = OptionsState(options: ComposeOptions, inputs: InputMap)

  /** revertInputValue: the field's text back to the text of the current option; the same map when it already is. */
  function Reverted(o: ComposeOptions, inputs: InputMap, key: NumericKey, numberText: real -> string): (r: InputMap)
    requires key in inputs
    ensures r == inputs[key := BuildNumericInputs(o, numberText)[key]]
  {
    var fallback := BuildNumericInputs(o, numberText)[key];
    if inputs[key] == fallback then inputs else inputs[key := fallback]
  }

  /** An accepted float: at least the field's minimum. */
  function SanitizeFloat(key: NumericKey, parsed: real): (v: real)
    requires NumericFieldConfig(key).kind == FloatField
    ensures WithinConfig(key, v)
    ensures parsed >= NumericFieldConfig(key).min as real ==> v == parsed
  {
    MaxR(NumericFieldConfig(key).min as real, parsed)
  }

  /** An accepted integer: clamped to the field's minimum and maximum (no maximum means none). */
  function SanitizeInt(key: NumericKey, parsed: int): (v: int)
    requires NumericFieldConfig(key).kind == IntField
    ensures WithinConfig(key, v as real)
    ensures WithinConfig(key, parsed as real) ==> v == parsed
  {
    var c := NumericFieldConfig(key);
    var capped := if c.max.Some? then Min(c.max.value, parsed) else parsed;
    var v := Max(c.min, capped);
    assert (v as real).Floor == v;
    v
  }

  /**
   * What any commit of one field keeps: the other fields' texts and values,
   * every non-numeric option, and a committed value within its bounds.
   */
  ghost predicate CommitKeeps(o: ComposeOptions, inputs: InputMap, key: NumericKey, st: OptionsState) {
    && st.inputs.Keys == inputs.Keys
    && (forall k :: k in inputs && k != key ==> st.inputs[k] == inputs[k])
    && (forall k :: k != key ==> NumericValue(st.options, k) == NumericValue(o, k))
    && st.options.gapPx == o.gapPx && st.options.separatorColor == o.separatorColor
    && st.options.output == o.output && st.options.quality == o.quality && st.options.cropToFill == o.cropToFill
    && (WithinConfig(key, NumericValue(o, key)) ==> WithinConfig(key, NumericValue(st.options, key)))
  }

  /** The float branch of a commit, given what parseFloat read. */
  function CommitFloat(o: ComposeOptions, inputs: InputMap, key: NumericKey, parsed: JsNumber,
                       numberText: real -> string): (st: OptionsState)
    requires key in inputs && NumericFieldConfig(key).kind == FloatField
    ensures CommitKeeps(o, inputs, key, st)
  {
    if !parsed.Finite? then OptionsState(o, Reverted(o, inputs, key, numberText))
    else
      var v := SanitizeFloat(key, parsed.value);
      OptionsState(WithReal(o, key, v), inputs[key := FormatNumberInput(v, numberText)])
  }

  /** The integer branch of a commit, given what parseInt read. */
  function CommitInt(o: ComposeOptions, inputs: InputMap, key: NumericKey, parsed: Option<int>,
                     numberText: real -> string): (st: OptionsState)
    requires key in inputs && NumericFieldConfig(key).kind == IntField
    ensures CommitKeeps(o, inputs, key, st)
  {
    match parsed
    case None => OptionsState(o, Reverted(o, inputs, key, numberText))
    case Some(n) =>
      var v := SanitizeInt(key, n);
      OptionsState(WithInt(o, key, v), inputs[key := IntToString(v)])
  }

  /**
   * commitNumericValue as a value: blank text reverts; a float field reads
   * the text with its first ',' taken as the decimal point and reverts when
   * the number is not finite; an integer field reverts when parseInt finds
   * no digits; otherwise the bounded value is stored and shown.
   */
  function Commit(o: ComposeOptions, inputs: InputMap, key: NumericKey,
                  parseFloat: string -> JsNumber, numberText: real -> string): (st: OptionsState)
    requires key in inputs
    ensures CommitKeeps(o, inputs, key, st)
  {
    var raw := Trim(inputs[key]);
    if raw == "" then OptionsState(o, Reverted(o, inputs, key, numberText))
    else if NumericFieldConfig(key).kind == FloatField then
      CommitFloat(o, inputs, key, parseFloat(ReplaceFirst(raw, ',', '.')), numberText)
    else
      CommitInt(o, inputs, key, ParseInt(raw), numberText)
  }

  /** Setting a float field to the value it holds is no change. */
  lemma WithRealUnchanged(o: ComposeOptions, key: NumericKey, v: real)
    requires NumericFieldConfig(key).kind == FloatField && NumericValue(o, key) == v
    ensures WithReal(o, key, v) == o
  {
    match key
    case WidthCm =>
    case HeightCm =>
  }

  /** Setting an integer field to the value it holds is no change. */
  lemma WithIntUnchanged(o: ComposeOptions, key: NumericKey, n: int)
    requires NumericFieldConfig(key).kind == IntField && NumericValue(o, key) == n as real
    ensures WithInt(o, key, n) == o
  {
    match key
    case Rows =>
    case Cols =>
    case Dpi =>
  }

  /** Whether a commit of the text reverts rather than stores a value. */
  predicate CommitReverts(text: string, key: NumericKey, parseFloat: string -> JsNumber) {
    var raw := Trim(text);
    || raw == ""
    || (NumericFieldConfig(key).kind == FloatField && !parseFloat(ReplaceFirst(raw, ',', '.')).Finite?)
    || (NumericFieldConfig(key).kind == IntField && ParseInt(raw).None?)
  }

  /** Blank or unreadable text leaves the options alone and shows the current value again. */
  lemma CommitRevert(o: ComposeOptions, inputs: InputMap, key: NumericKey,
                     parseFloat: string -> JsNumber, numberText: real -> string)
    requires key in inputs && CommitReverts(inputs[key], key, parseFloat)
    ensures Commit(o, inputs, key, parseFloat, numberText)
            == OptionsState(o, inputs[key := BuildNumericInputs(o, numberText)[key]])
  {
  }

  /** The options agree except perhaps on the numeric key. */
  predicate SameExcept(o: ComposeOptions, r: ComposeOptions, key: NumericKey) {
    && (forall k :: k != key ==> NumericValue(r, k) == NumericValue(o, k))
    && r.gapPx == o.gapPx && r.separatorColor == o.separatorColor && r.output == o.output
    && r.quality == o.quality && r.cropToFill == o.cropToFill
  }

  /**
   * An accepted commit of a float field stores the parsed number raised to
   * the field's minimum in that field only and shows its formatted text in
   * that field only.
   */
  lemma CommitAcceptFloat(o: ComposeOptions, inputs: InputMap, key: NumericKey,
                          parseFloat: string -> JsNumber, numberText: real -> string)
    requires key in inputs && NumericFieldConfig(key).kind == FloatField
    requires Trim(inputs[key]) != "" && parseFloat(ReplaceFirst(Trim(inputs[key]), ',', '.')).Finite?
    ensures var parsed := parseFloat(ReplaceFirst(Trim(inputs[key]), ',', '.')).value;
      var s := Commit(o, inputs, key, parseFloat, numberText);
      && NumericValue(s.options, key) == MaxR(1.0, parsed)
      && WithinConfig(key, NumericValue(s.options, key))
      && SameExcept(o, s.options, key)
      && s.inputs == inputs[key := FormatNumberInput(MaxR(1.0, parsed), numberText)]
  {
    match key
    case WidthCm =>
    case HeightCm =>
  }

  /**
   * An accepted commit of an integer field stores the parsed integer clamped
   * to the field's bounds in that field only, and the text it shows there
   * reads back as the stored value.
   */
  lemma CommitAcceptInt(o: ComposeOptions, inputs: InputMap, key: NumericKey, n: int,
                        parseFloat: string -> JsNumber, numberText: real -> string)
    requires key in inputs && NumericFieldConfig(key).kind == IntField
    requires Trim(inputs[key]) != "" && ParseInt(Trim(inputs[key])) == Some(n)
    ensures var c := NumericFieldConfig(key);
      var s := Commit(o, inputs, key, parseFloat, numberText);
      && NumericValue(s.options, key) == Max(c.min, Min(c.max.value, n)) as real
      && WithinConfig(key, NumericValue(s.options, key))
      && SameExcept(o, s.options, key)
      && s.inputs == inputs[key := IntToString(Max(c.min, Min(c.max.value, n)))]
      && ParseInt(s.inputs[key]) == Some(Max(c.min, Min(c.max.value, n)))
  {
    assert Commit(o, inputs, key, parseFloat, numberText) == CommitInt(o, inputs, key, Some(n), numberText);
    CommitIntStores(o, inputs, key, n, numberText);
  }

  /** CommitAcceptInt on the integer branch, once parseInt has read n. */
  lemma CommitIntStores(o: ComposeOptions, inputs: InputMap, key: NumericKey, n: int, numberText: real -> string)
    requires key in inputs && NumericFieldConfig(key).kind == IntField
    ensures var c := NumericFieldConfig(key);
      var s := CommitInt(o, inputs, key, Some(n), numberText);
      && NumericValue(s.options, key) == Max(c.min, Min(c.max.value, n)) as real
      && WithinConfig(key, NumericValue(s.options, key))
      && SameExcept(o, s.options, key)
      && s.inputs == inputs[key := IntToString(Max(c.min, Min(c.max.value, n)))]
      && ParseInt(s.inputs[key]) == Some(Max(c.min, Min(c.max.value, n)))
  {
    var v := SanitizeInt(key, n);
    var c := NumericFieldConfig(key);
    assert v == Max(c.min, Min(c.max.value, n));
    ParseIntOfIntToString(v);
    assert SameExcept(o, WithInt(o, key, v), key) by {
      match key
      case Rows =>
      case Cols =>
      case Dpi =>
    }
  }

  /** Trimming digits changes nothing. */
  lemma TrimOfDigits(s: string)
    requires s != [] && AllDigits(s)
    ensures Trim(s) == s
  {
    DigitNotWhitespace(s[0]);
    DigitNotWhitespace(s[|s| - 1]);
    assert TrimStart(s) == s;
    assert TrimEnd(s) == s;
  }

  /** No digit is white space. */
  lemma DigitNotWhitespace(c: char)
    requires IsDigit(c)
    ensures !IsJsWhitespace(c)
  {
  }

  /** An integer field's text shows an integer within its bounds, whether the commit stored or reverted. */
  lemma CommitIntShows(o: ComposeOptions, inputs: InputMap, key: NumericKey,
                       parseFloat: string -> JsNumber, numberText: real -> string)
    requires key in inputs && NumericFieldConfig(key).kind == IntField
    requires WithinConfig(key, NumericValue(o, key))
    ensures var s := Commit(o, inputs, key, parseFloat, numberText);
      var v := NumericValue(s.options, key).Floor;
      && NumericValue(s.options, key) == v as real && WithinConfig(key, v as real)
      && s.inputs[key] == IntToString(v)
  {
    var s := Commit(o, inputs, key, parseFloat, numberText);
    if CommitReverts(inputs[key], key, parseFloat) {
      CommitRevert(o, inputs, key, parseFloat, numberText);
      match key
      case Rows =>
      case Cols =>
      case Dpi =>
    } else {
      CommitAcceptInt(o, inputs, key, ParseInt(Trim(inputs[key])).value, parseFloat, numberText);
    }
  }

  /** Committing an integer field that shows its own in-bounds value changes nothing. */
  lemma CommitShownIntStable(o: ComposeOptions, inputs: InputMap, key: NumericKey, v: int,
                             parseFloat: string -> JsNumber, numberText: real -> string)
    requires key in inputs && NumericFieldConfig(key).kind == IntField
    requires NumericValue(o, key) == v as real && WithinConfig(key, v as real) && inputs[key] == IntToString(v)
    ensures Commit(o, inputs, key, parseFloat, numberText) == OptionsState(o, inputs)
  {
    assert v >= 1 by {
      match key
      case Rows =>
      case Cols =>
      case Dpi =>
    }
    var text := IntToString(v);
    assert text == NatToString(v);
    TrimOfDigits(text);
    ParseIntOfIntToString(v);
    assert ParseInt(Trim(inputs[key])) == Some(v);
    assert Commit(o, inputs, key, parseFloat, numberText) == CommitInt(o, inputs, key, Some(v), numberText);
    assert SanitizeInt(key, v) == v;
    WithIntUnchanged(o, key, v);
  }

  /** Committing an integer field a second time changes nothing. */
  lemma CommitIntIdempotent(o: ComposeOptions, inputs: InputMap, key: NumericKey,
                            parseFloat: string -> JsNumber, numberText: real -> string)
    requires key in inputs && NumericFieldConfig(key).kind == IntField
    requires WithinConfig(key, NumericValue(o, key))
    ensures var s := Commit(o, inputs, key, parseFloat, numberText);
      Commit(s.options, s.inputs, key, parseFloat, numberText) == s
  {
    var s := Commit(o, inputs, key, parseFloat, numberText);
    CommitIntShows(o, inputs, key, parseFloat, numberText);
    var v := NumericValue(s.options, key).Floor;
    CommitShownIntStable(s.options, s.inputs, key, v, parseFloat, numberText);
  }

  // ---------------------------------------------------------------- patches

  /** Whether a patch carries the numeric key. */
  predicate PatchHas(patch: Patch, key: NumericKey) {
    match key
    case Rows => patch.rows.Some?
    case Cols => patch.cols.Some?
    case WidthCm => patch.widthCm.Some?
    case HeightCm => patch.heightCm.Some?
    case Dpi => patch.dpi.Some?
  }

  /** A numeric option after a merge: the patch's value when it carries the key, the previous one otherwise. */
  lemma MergeNumeric(prev: ComposeOptions, patch: Patch, key: NumericKey)
    ensures !PatchHas(patch, key) ==> NumericValue(Merge(prev, patch), key) == NumericValue(prev, key)
    ensures key == Rows && PatchHas(patch, key) ==> Merge(prev, patch).rows == patch.rows.value
    ensures key == Cols && PatchHas(patch, key) ==> Merge(prev, patch).cols == patch.cols.value
    ensures key == WidthCm && PatchHas(patch, key) ==> Merge(prev, patch).widthCm == patch.widthCm.value
    ensures key == HeightCm && PatchHas(patch, key) ==> Merge(prev, patch).heightCm == patch.heightCm.value
    ensures key == Dpi && PatchHas(patch, key) ==> Merge(prev, patch).dpi == patch.dpi.value
  {
  }

  /** The field texts after updateOptions: the display form of the merged value for each numeric key in the patch. */
  function RefreshedInputs(inputs: InputMap, patch: Patch, next: ComposeOptions, numberText: real -> string): (r: InputMap)
    ensures r.Keys == inputs.Keys
  {
    map k | k in inputs :: if PatchHas(patch, k) then ToDisplayValue(k, NumericValue(next, k), numberText) else inputs[k]
  }

  /**
   * The refresh loop's invariant after visiting the keys in done: every
   * visited key the patch carries shows its new value, every other key keeps
   * its text.
   */
  ghost predicate Refreshing(inputs: InputMap, updated: InputMap, patch: Patch, next: ComposeOptions,
                             numberText: real -> string, done: seq<NumericKey>) {
    && Total(inputs) && Total(updated)
    && (forall k :: k in done && PatchHas(patch, k) ==>
          updated[k] == ToDisplayValue(k, NumericValue(next, k), numberText))
    && (forall k :: !(k in done && PatchHas(patch, k)) ==> updated[k] == inputs[k])
  }

  /** Visiting one more key keeps the invariant, whether its text is rewritten or already current. */
  lemma RefreshingStep(inputs: InputMap, updated: InputMap, patch: Patch, next: ComposeOptions,
                       numberText: real -> string, done: seq<NumericKey>, key: NumericKey)
    requires Refreshing(inputs, updated, patch, next, numberText, done)
    ensures var shown := ToDisplayValue(key, NumericValue(next, key), numberText);
      && (PatchHas(patch, key) ==> Refreshing(inputs, updated[key := shown], patch, next, numberText, done + [key]))
      && (PatchHas(patch, key) && updated[key] == shown ==>
            Refreshing(inputs, updated, patch, next, numberText, done + [key]))
      && (!PatchHas(patch, key) ==> Refreshing(inputs, updated, patch, next, numberText, done + [key]))
  {
    var shown := ToDisplayValue(key, NumericValue(next, key), numberText);
    var after := updated[key := shown];
    forall k: NumericKey ensures k in after {
      assert k in updated;
    }
  }

  /** Once every key is visited, the loop's map is exactly the refreshed map. */
  lemma RefreshingDone(inputs: InputMap, updated: InputMap, patch: Patch, next: ComposeOptions, numberText: real -> string)
    requires Refreshing(inputs, updated, patch, next, numberText, NumericKeys)
    ensures updated == RefreshedInputs(inputs, patch, next, numberText)
  {
    forall k: NumericKey ensures k in NumericKeys {
      match k
      case Rows => assert NumericKeys[0] == Rows;
      case Cols => assert NumericKeys[1] == Cols;
      case WidthCm => assert NumericKeys[2] == WidthCm;
      case HeightCm => assert NumericKeys[3] == HeightCm;
      case Dpi => assert NumericKeys[4] == Dpi;
    }
    var r := RefreshedInputs(inputs, patch, next, numberText);
    assert updated.Keys == r.Keys by {
      forall k: NumericKey ensures k in updated && k in r {
        assert k in inputs;
      }
    }
  }

  /** A patch without numeric keys leaves every text as it was. */
  lemma RefreshWithoutNumericKeys(inputs: InputMap, patch: Patch, next: ComposeOptions, numberText: real -> string)
    requires forall k :: !PatchHas(patch, k)
    ensures RefreshedInputs(inputs, patch, next, numberText) == inputs
  {
  }

  /** After a patch the texts it refreshed are exactly what buildNumericInputs would give the merged options. */
  lemma RefreshAgreesWithBuild(inputs: InputMap, prev: ComposeOptions, patch: Patch, numberText: real -> string, key: NumericKey)
    requires key in inputs && PatchHas(patch, key)
    ensures RefreshedInputs(inputs, patch, Merge(prev, patch), numberText)[key]
            == BuildNumericInputs(Merge(prev, patch), numberText)[key]
  {
    DisplayMatchesBuild(Merge(prev, patch), key, numberText);
  }

  // ---------------------------------------------------------------- the hook's state

  class GridOptionsHook {
    var options: ComposeOptions
    var inputValues: InputMap

    /** Every numeric field has a text. */
    predicate Valid()
      reads this
    {
      Total(inputValues)
    }

    /** The hook's first render: a copy of the defaults and their texts. */
    constructor (defaults: ComposeOptions, numberText: real -> string)
      ensures Valid() && options == defaults && inputValues == BuildNumericInputs(defaults, numberText)
    {
      options := defaults;
      inputValues := BuildNumericInputs(defaults, numberText);
    }

    /** updateInputValue: the field shows what was typed. */
    method UpdateInputValue(key: NumericKey, value: string)
      requires Valid()
      modifies this
      ensures Valid() && options == old(options) && inputValues == old(inputValues)[key := value]
    {
      inputValues := inputValues[key := value];
    }

    /** revertInputValue. */
    method RevertInputValue(key: NumericKey, numberText: real -> string)
      requires Valid()
      modifies this
      ensures Valid() && options == old(options)
      ensures inputValues == Reverted(old(options), old(inputValues), key, numberText)
      ensures old(inputValues)[key] == BuildNumericInputs(old(options), numberText)[key] ==> inputValues == old(inputValues)
    {
      var fallback := BuildNumericInputs(options, numberText)[key];
      if inputValues[key] == fallback {
        return;
      }
      inputValues := inputValues[key := fallback];
    }

    /** commitNumericValue. */
    method CommitNumericValue(key: NumericKey, parseFloat: string -> JsNumber, numberText: real -> string)
      requires Valid()
      modifies this
      ensures Valid()
      ensures OptionsState(options, inputValues) == Commit(old(options), old(inputValues), key, parseFloat, numberText)
    {
      var raw := Trim(inputValues[key]);
      if raw == "" {
        RevertInputValue(key, numberText);
        return;
      }
      var config := NumericFieldConfig(key);
      if config.kind == FloatField {
        var parsed := parseFloat(ReplaceFirst(raw, ',', '.'));
        if !parsed.Finite? {
          RevertInputValue(key, numberText);
          return;
        }
        var sanitized := SanitizeFloat(key, parsed.value);
        if NumericValue(options, key) != sanitized {
          options := WithReal(options, key, sanitized);
        } else {
          WithRealUnchanged(options, key, sanitized);
        }
        inputValues := inputValues[key := FormatNumberInput(sanitized, numberText)];
        return;
      }
      var parsedInt := ParseInt(raw);
      if parsedInt.None? {
        RevertInputValue(key, numberText);
        return;
      }
      var sanitized := SanitizeInt(key, parsedInt.value);
      if NumericValue(options, key) != sanitized as real {
        options := WithInt(options, key, sanitized);
      } else {
        WithIntUnchanged(options, key, sanitized);
      }
      inputValues := inputValues[key := IntToString(sanitized)];
    }

    /**
     * updateOptions: merge the patch, then walk the numeric keys in order,
     * refreshing the text of each one the patch carries; the map is replaced
     * only when some text changed.
     */
    method UpdateOptions(patch: Patch, numberText: real -> string)
      requires Valid()
      modifies this
      ensures Valid()
      ensures options == Merge(old(options), patch)
      ensures inputValues == RefreshedInputs(old(inputValues), patch, options, numberText)
    {
      var next := Merge(options, patch);
      var updated := inputValues;
      var changed := false;
      for i := 0 to |NumericKeys|
        invariant unchanged(this)
        invariant Refreshing(inputValues, updated, patch, next, numberText, NumericKeys[..i])
        invariant !changed ==> updated == inputValues
      {
        var key := NumericKeys[i];
        assert NumericKeys[..i + 1] == NumericKeys[..i] + [key];
        RefreshingStep(inputValues, updated, patch, next, numberText, NumericKeys[..i], key);
        if PatchHas(patch, key) {
          var displayValue := ToDisplayValue(key, NumericValue(next, key), numberText);
          if updated[key] != displayValue {
            updated := updated[key := displayValue];
            changed := true;
          }
        }
      }
      assert NumericKeys[..|NumericKeys|] == NumericKeys;
      RefreshingDone(inputValues, updated, patch, next, numberText);
      if changed {
        inputValues := updated;
      }
      options := next;
    }
  }
}
