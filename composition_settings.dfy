/**
 * The logic of src/components/Settings/CompositionSettings.tsx: the
 * keystroke filters of the numeric text fields, the clamp of the gap slider,
 * and the handlers that turn an edit into an options patch (or into no patch
 * when nothing would change).
 */
module CompositionSettings {
  import opened Wrappers
  import opened JsBuiltins
  import opened Options
  import opened NumberUtils

  // ---------------------------------------------------------------- clamp

  /** `Math.min(Math.max(value, lo), hi)` on integers. */
  function ClampRange(value: int, lo: int, hi: int): (r: int)
    ensures r <= hi
    ensures lo <= hi ==> lo <= r
    ensures lo <= value <= hi ==> r == value
    ensures value < lo && lo <= hi ==> r == lo
    ensures value > hi ==> r == hi
  {
    Min(Max(value, lo), hi)
  }

  /** With ordered bounds the component's clamp agrees with the shared number clamp on finite values. */
  lemma ClampRangeAgrees(value: int, lo: int, hi: int)
    requires lo <= hi
    ensures ClampRange(value, lo, hi) as real == Clamp(Finite(value as real), lo as real, hi as real)
  {
  }

  // ---------------------------------------------------------------- input filters

  /** `.` or `,`: the characters a decimal field accepts as its separator. */
  predicate IsSeparator(c: char) {
    c == '.' || c == ','
  }

  /** `value.replace(/[^\d]/g, '')`: the digits of s, in order. */
  function FilterIntegerInput(s: string): (r: string)
    ensures AllDigits(r) && |r| <= |s|
    decreases |s|
  {
    if s == [] then []
    else
      var last := s[|s| - 1];
      FilterIntegerInput(s[..|s| - 1]) + (if IsDigit(last) then [last] else [])
  }

  /** Filtering distributes over concatenation: what is kept of each part is kept, in order. */
  lemma {:induction false} FilterIntegerAppend(a: string, b: string)
    ensures FilterIntegerInput(a + b) == FilterIntegerInput(a) + FilterIntegerInput(b)
    decreases |b|
  {
    if b != [] {
      var b' := b[..|b| - 1];
      assert (a + b)[..|a + b| - 1] == a + b';
      FilterIntegerAppend(a, b');
    } else {
      assert a + b == a;
    }
  }

  /** A single character is kept exactly when it is a digit. */
  lemma FilterIntegerOne(c: char)
    ensures FilterIntegerInput([c]) == (if IsDigit(c) then [c] else [])
  {
    assert [c][..0] == [];
  }

  /** A digit-only string is left as it is. */
  lemma {:induction false} FilterIntegerOfDigits(s: string)
    requires AllDigits(s)
    ensures FilterIntegerInput(s) == s
    decreases |s|
  {
    if s != [] {
      FilterIntegerOfDigits(s[..|s| - 1]);
      assert s[..|s| - 1] + [s[|s| - 1]] == s;
    }
  }

  /** Filtering a second time changes nothing. */
  lemma FilterIntegerIdempotent(s: string)
    ensures FilterIntegerInput(FilterIntegerInput(s)) == FilterIntegerInput(s)
  {
    FilterIntegerOfDigits(FilterIntegerInput(s));
  }

  /** Whether s holds a separator. */
  predicate ContainsSeparator(s: string)
    decreases |s|
  {
    s != [] && (ContainsSeparator(s[..|s| - 1]) || IsSeparator(s[|s| - 1]))
  }

  /** A separator anywhere in s is seen. */
  lemma {:induction false} SeparatorAt(s: string, i: nat)
    requires i < |s| && IsSeparator(s[i])
    ensures ContainsSeparator(s)
    decreases |s|
  {
    if i < |s| - 1 {
      SeparatorAt(s[..|s| - 1], i);
    }
  }

  /** Digits hold no separator. */
  lemma {:induction false} DigitsHaveNoSeparator(s: string)
    requires AllDigits(s)
    ensures !ContainsSeparator(s)
    decreases |s|
  {
    if s != [] {
      DigitsHaveNoSeparator(s[..|s| - 1]);
    }
  }

  /**
   * filterDecimalInput as a value: every digit, and the first separator
   * (dropping any later one), in order. Defined by the last character so that
   * the loop of the method below computes it prefix by prefix.
   */
  function FilterDecimal(s: string): (r: string)
    ensures |r| <= |s|
    ensures forall k :: 0 <= k < |r| ==> IsDigit(r[k]) || IsSeparator(r[k])
    decreases |s|
  {
    if s == [] then []
    else
      var init, last := s[..|s| - 1], s[|s| - 1];
      var kept := FilterDecimal(init);
      if IsDigit(last) then kept + [last]
      else if IsSeparator(last) && !ContainsSeparator(init) then kept + [last]
      else kept
  }

  /** Without a separator the decimal filter is the integer filter. */
  lemma {:induction false} FilterDecimalNoSeparator(s: string)
    requires !ContainsSeparator(s)
    ensures FilterDecimal(s) == FilterIntegerInput(s)
    decreases |s|
  {
    if s != [] {
      var init := s[..|s| - 1];
      assert !ContainsSeparator(init);
      FilterDecimalNoSeparator(init);
    }
  }

  /**
   * Split at the first separator c, s == a + [c] + b: the filter keeps the
   * digits of a, then c, then the digits of b and none of b's separators.
   */
  lemma {:induction false} FilterDecimalSplit(a: string, c: char, b: string)
    requires !ContainsSeparator(a) && IsSeparator(c)
    ensures FilterDecimal(a + [c] + b) == FilterIntegerInput(a) + [c] + FilterIntegerInput(b)
    decreases |b|
  {
    if b == [] {
      assert (a + [c] + b)[..|a + [c] + b| - 1] == a;
      FilterDecimalNoSeparator(a);
    } else {
      var b', last := b[..|b| - 1], b[|b| - 1];
      var init := a + [c] + b';
      var s := a + [c] + b;
      assert s[..|s| - 1] == init && s[|s| - 1] == last;
      assert init[|a|] == c;
      SeparatorAt(init, |a|);
      var extra := if IsDigit(last) then [last] else [];
      assert FilterDecimal(s) == FilterDecimal(init) + extra;
      assert FilterIntegerInput(b) == FilterIntegerInput(b') + extra;
      FilterDecimalSplit(a, c, b');
      assert FilterDecimal(s) == (FilterIntegerInput(a) + [c] + FilterIntegerInput(b')) + extra;
    }
  }

  /** The filter's output: digits, and at most one separator. */
  predicate DecimalShaped(r: string) {
    && (forall i :: 0 <= i < |r| ==> IsDigit(r[i]) || IsSeparator(r[i]))
    && (forall i, j :: 0 <= i < j < |r| && IsSeparator(r[i]) ==> !IsSeparator(r[j]))
  }

  /** The position of the first separator of s. */
  function FirstSeparator(s: string): (i: nat)
    requires ContainsSeparator(s)
    ensures i < |s| && IsSeparator(s[i]) && !ContainsSeparator(s[..i])
    decreases |s|
  {
    var init := s[..|s| - 1];
    if ContainsSeparator(init) then
      var i := FirstSeparator(init);
      assert s[..i] == init[..i];
      i
    else
      assert s[..|s| - 1] == init;
      |s| - 1
  }

  /** Digits around one separator are shaped as a decimal number's text. */
  lemma DigitsAroundSeparator(left: string, c: char, right: string)
    requires AllDigits(left) && AllDigits(right) && IsSeparator(c)
    ensures DecimalShaped(left + [c] + right)
  {
    var r := left + [c] + right;
    assert forall k :: 0 <= k < |left| ==> r[k] == left[k];
    assert forall k :: |left| < k < |r| ==> r[k] == right[k - |left| - 1];
  }

  /**
   * The decimal filter keeps every digit in order and, when s holds a
   * separator, exactly the first one, in its place among the digits.
   */
  lemma FilterDecimalKeepsFirstSeparator(s: string)
    ensures !ContainsSeparator(s) ==> FilterDecimal(s) == FilterIntegerInput(s)
    ensures ContainsSeparator(s) ==>
      var i := FirstSeparator(s);
      FilterDecimal(s) == FilterIntegerInput(s[..i]) + [s[i]] + FilterIntegerInput(s[i + 1..])
  {
    if ContainsSeparator(s) {
      var i := FirstSeparator(s);
      var a, c, b := s[..i], s[i], s[i + 1..];
      SplitAround(s, i);
      FilterDecimalSplit(a, c, b);
      assert FilterDecimal(s) == FilterDecimal(a + [c] + b);
    } else {
      FilterDecimalNoSeparator(s);
    }
  }

  /** s is what comes before position i, the character at i, and what follows. */
  lemma SplitAround(s: string, i: nat)
    requires i < |s|
    ensures s == s[..i] + [s[i]] + s[i + 1..]
  {
  }

  /** The decimal filter's output is digits and at most one separator. */
  lemma FilterDecimalShaped(s: string)
    ensures DecimalShaped(FilterDecimal(s))
  {
    FilterDecimalKeepsFirstSeparator(s);
    if ContainsSeparator(s) {
      var i := FirstSeparator(s);
      DigitsAroundSeparator(FilterIntegerInput(s[..i]), s[i], FilterIntegerInput(s[i + 1..]));
    } else {
      var r := FilterIntegerInput(s);
      assert forall k :: 0 <= k < |r| ==> IsDigit(r[k]);
    }
  }

  /** The integer filter drops a separator between two parts. */
  lemma FilterIntegerDropsSeparator(a: string, c: char, b: string)
    requires IsSeparator(c)
    ensures FilterIntegerInput(a + [c] + b) == FilterIntegerInput(a) + FilterIntegerInput(b)
  {
    var ac := a + [c];
    FilterIntegerAppend(a, [c]);
    FilterIntegerOne(c);
    assert !IsDigit(c);
    assert FilterIntegerInput(ac) == FilterIntegerInput(a);
    FilterIntegerAppend(ac, b);
  }

  /**
   * Deleting the kept separator from the decimal filter's output leaves
   * exactly the integer filter's output (s split at its first separator c).
   */
  lemma FilterDecimalWithoutSeparator(a: string, c: char, b: string)
    requires !ContainsSeparator(a) && IsSeparator(c)
    ensures var r := FilterDecimal(a + [c] + b);
      var j := |FilterIntegerInput(a)|;
      j < |r| && r[j] == c && r[..j] + r[j + 1..] == FilterIntegerInput(a + [c] + b)
  {
    var left, right := FilterIntegerInput(a), FilterIntegerInput(b);
    FilterDecimalSplit(a, c, b);
    FilterIntegerDropsSeparator(a, c, b);
    var r := FilterDecimal(a + [c] + b);
    var j := |left|;
    assert r[..j] == left && r[j + 1..] == right;
  }

  /** Filtering a second time changes nothing. */
  lemma FilterDecimalIdempotent(s: string)
    ensures FilterDecimal(FilterDecimal(s)) == FilterDecimal(s)
  {
    if ContainsSeparator(s) {
      var i := FirstSeparator(s);
      FilterDecimalKeepsFirstSeparator(s);
      var left, right := FilterIntegerInput(s[..i]), FilterIntegerInput(s[i + 1..]);
      DigitsHaveNoSeparator(left);
      FilterDecimalSplit(left, s[i], right);
      FilterIntegerOfDigits(left);
      FilterIntegerOfDigits(right);
    } else {
      FilterDecimalNoSeparator(s);
      var r := FilterIntegerInput(s);
      DigitsHaveNoSeparator(r);
      FilterDecimalNoSeparator(r);
      FilterIntegerIdempotent(s);
    }
  }

  /** filterDecimalInput: one pass over the characters, remembering whether a separator was kept. */
  method FilterDecimalInput(value: string) returns (result: string)
    ensures result == FilterDecimal(value)
  {
    var decimalSeen := false;
    result := "";
    for i := 0 to |value|
      invariant result == FilterDecimal(value[..i])
      invariant decimalSeen == ContainsSeparator(value[..i])
    {
      var ch := value[i];
      assert value[..i + 1][..i] == value[..i] && value[..i + 1][i] == ch;
      if IsDigit(ch) {
        result := result + [ch];
        continue;
      }
      if IsSeparator(ch) && !decimalSeen {
        result := result + [ch];
        decimalSeen := true;
      }
    }
    assert value[..|value|] == value;
  }

  // ---------------------------------------------------------------- handlers

  /**
   * handleGapChange: parseInt of the text, clamped to 0..120; unreadable
   * text keeps the current gap; a patch only when the gap changes.
   */
  function GapChange(text: string, options: ComposeOptions): (p: Option<Patch>)
    ensures p.Some? ==> p.value == EmptyPatch.(gapPx := p.value.gapPx) && p.value.gapPx.Some?
    ensures p.Some? ==> 0 <= p.value.gapPx.value <= 120 && p.value.gapPx.value != options.gapPx
    ensures ParseInt(text).None? ==> p.None?
  {
    var parsed := ParseInt(text);
    var next := if parsed.Some? then ClampRange(parsed.value, 0, 120) else options.gapPx;
    if next != options.gapPx then Some(EmptyPatch.(gapPx := Some(next))) else None
  }

  /** The options after an edit: merged with the patch, if any. */
  function Applied(options: ComposeOptions, p: Option<Patch>): ComposeOptions {
    if p.Some? then Merge(options, p.value) else options
  }

  /** After a readable gap edit the gap is the clamped value, whether or not a patch was emitted. */
  lemma GapChangeApplied(text: string, options: ComposeOptions)
    requires ParseInt(text).Some?
    ensures var next := Applied(options, GapChange(text, options));
      && next.gapPx == ClampRange(ParseInt(text).value, 0, 120)
      && next == options.(gapPx := next.gapPx)
  {
  }

  /** handleOutputChange: a patch only when the format differs. */
  function OutputChange(format: OutputFormat, options: ComposeOptions): (p: Option<Patch>)
    ensures p.Some? <==> options.output != format
    ensures p.Some? ==> p.value == EmptyPatch.(output := Some(format))
  {
    if options.output != format then Some(EmptyPatch.(output := Some(format))) else None
  }

  /** After choosing a format the options hold it and nothing else changed. */
  lemma OutputChangeApplied(format: OutputFormat, options: ComposeOptions)
    ensures Applied(options, OutputChange(format, options)) == options.(output := format)
  {
  }

  /**
   * handleQualityChange: parseFloat of the text; a non-finite number is
   * ignored; a patch only when the quality differs.
   */
  function QualityChange(text: string, options: ComposeOptions, parseFloat: string -> JsNumber): (p: Option<Patch>)
    ensures p.Some? <==> parseFloat(text).Finite? && parseFloat(text).value != options.quality
    ensures p.Some? ==> p.value == EmptyPatch.(quality := Some(parseFloat(text).value))
  {
    var parsed := parseFloat(text);
    if !parsed.Finite? then None
    else if parsed.value != options.quality then Some(EmptyPatch.(quality := Some(parsed.value)))
    else None
  }

  /** After a quality edit the options hold the finite number read, or are as they were. */
  lemma QualityChangeApplied(text: string, options: ComposeOptions, parseFloat: string -> JsNumber)
    ensures var next := Applied(options, QualityChange(text, options, parseFloat));
      && (parseFloat(text).Finite? ==> next == options.(quality := parseFloat(text).value))
      && (!parseFloat(text).Finite? ==> next == options)
  {
  }
}
