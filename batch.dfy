/**
 * Export batching shared by src/hooks/useGridBuilder.ts and src/App.tsx:
 * the group size, the split of the file list into consecutive full groups,
 * the file extension and the `grid-NN.ext` entry names.
 */
module Batch {
  import opened Wrappers
  import opened JsBuiltins
  import opened Platform
  import opened Errors
  import opened Options

  /** Photos per grid: rows * cols, never below 1. */
  function GroupSize(rows: int, cols: int): (size: int)
    ensures size >= 1
    ensures rows * cols >= 1 ==> size == rows * cols
    ensures rows * cols < 1 ==> size == 1
  {
    Max(1, rows * cols)
  }

  /** With at least one row and one column, a group holds exactly rows * cols photos. */
  lemma ShapeGroupSize(rows: int, cols: int)
    requires rows >= 1 && cols >= 1
    ensures rows * cols >= 1 && GroupSize(rows, cols) == rows * cols
  {
    MulMonotone(1, rows, cols);
  }

  /** The photos left over after the last full group: `n % groupSize` (both operands non-negative). */
  function Remainder(n: nat, size: int): (r: int)
    requires size >= 1
    ensures 0 <= r < size
    ensures r == n % size
  {
    JsRem(n, size)
  }

  /** The photos still needed to complete the next grid: 0 with no remainder, else size - remainder. */
  function Missing(n: nat, size: int): (m: int)
    requires size >= 1
    ensures 0 <= m < size
    ensures m == 0 <==> n % size == 0
  {
    var r := Remainder(n, size);
    if r == 0 then 0 else size - r
  }

  /** Adding the missing photos completes the last group exactly. */
  lemma MissingCompletes(n: nat, size: int)
    requires size >= 1
    ensures (n + Missing(n, size)) % size == 0
    ensures Missing(n, size) != 0 ==> (n + Missing(n, size)) / size == n / size + 1
  {
    var q, r := n / size, n % size;
    assert n == q * size + r;
    if r != 0 {
      assert n + Missing(n, size) == (q + 1) * size;
      DivExact(q + 1, size, (q + 1) * size);
    } else {
      DivExact(q, size, n);
    }
  }

  // ---------------------------------------------------------------- full groups

  lemma DivBounds(n: nat, size: int, k: int)
    requires size >= 1 && 0 <= k < n / size
    ensures 0 <= k * size && (k + 1) * size <= n
  {
    assert (k + 1) * size <= (n / size) * size;
  }

  /** Group k of the full groups: elements k * size up to (k + 1) * size. */
  function Group<T>(s: seq<T>, size: int, k: int): (g: seq<T>)
    requires size >= 1 && 0 <= k < |s| / size
    ensures |g| == size
  {
    DivBounds(|s|, size, k);
    s[k * size..(k + 1) * size]
  }

  /** The consecutive full groups of s, in order; a trailing short run is dropped. */
  function FullGroups<T>(s: seq<T>, size: int): (gs: seq<seq<T>>)
    requires size >= 1
    ensures |gs| == |s| / size
    ensures forall k :: 0 <= k < |gs| ==> gs[k] == Group(s, size, k)
  {
    seq(|s| / size, k requires 0 <= k < |s| / size => Group(s, size, k))
  }

  function Flatten<T>(gs: seq<seq<T>>): seq<T> {
    if gs == [] then [] else Flatten(gs[..|gs| - 1]) + gs[|gs| - 1]
  }

  lemma {:induction false} FlattenFullGroupsUpTo<T>(s: seq<T>, size: int, m: nat)
    requires size >= 1 && m <= |s| / size
    ensures m * size <= |s|
    ensures Flatten(FullGroups(s, size)[..m]) == s[..m * size]
  {
    var gs := FullGroups(s, size);
    if m == 0 {
      assert gs[..0] == [];
    } else {
      FlattenFullGroupsUpTo(s, size, m - 1);
      var p, q := (m - 1) * size, m * size;
      DivBounds(|s|, size, m - 1);
      NextGroupStep(m - 1, size, p);
      var prefix := gs[..m];
      assert prefix[..m - 1] == gs[..m - 1];
      assert prefix[m - 1] == Group(s, size, m - 1) == s[p..q];
      assert Flatten(prefix) == Flatten(gs[..m - 1]) + s[p..q];
      assert s[..q] == s[..p] + s[p..q];
    }
  }

  /** Concatenating the full groups gives back the longest prefix of whole groups, so no photo moves or repeats. */
  lemma FlattenFullGroups<T>(s: seq<T>, size: int)
    requires size >= 1
    ensures Flatten(FullGroups(s, size)) == s[..(|s| / size) * size]
    ensures |s| % size == 0 ==> Flatten(FullGroups(s, size)) == s
  {
    var gs := FullGroups(s, size);
    FlattenFullGroupsUpTo(s, size, |gs|);
    assert gs[..|gs|] == gs;
    if |s| % size == 0 {
      var q := |s| / size;
      assert |s| == q * size + |s| % size;
      assert q * size == |s|;
      assert s[..q * size] == s;
    }
  }

  /** Element k of group g is element g * size + k of the list, and of the concatenated groups. */
  lemma FullGroupsElement<T>(s: seq<T>, size: int, g: int, k: int)
    requires size >= 1 && 0 <= g < |s| / size && 0 <= k < size
    ensures 0 <= g * size + k < (|s| / size) * size <= |s|
    ensures |Flatten(FullGroups(s, size))| == (|s| / size) * size
    ensures FullGroups(s, size)[g][k] == s[g * size + k]
    ensures Flatten(FullGroups(s, size))[g * size + k] == s[g * size + k]
  {
    var q := |s| / size;
    DivBounds(|s|, size, g);
    MulMonotone(g + 1, q, size);
    assert (g + 1) * size == g * size + size;
    assert |s| == q * size + |s| % size;
    var group := FullGroups(s, size)[g];
    assert group == s[g * size..(g + 1) * size];
    assert group[k] == s[g * size + k];
    FlattenFullGroups(s, size);
  }

  /** No full group when there are fewer photos than one group; one group exactly when size <= n < 2 * size. */
  lemma FullGroupsCount<T>(s: seq<T>, size: int)
    requires size >= 1
    ensures |s| < size <==> FullGroups(s, size) == []
    ensures |FullGroups(s, size)| == 1 <==> size <= |s| < 2 * size
  {
    if |s| >= 2 * size {
      assert |s| / size >= 2;
    }
  }

  lemma MulCancelLt(a: int, b: int, size: int)
    requires size >= 1 && a * size < b * size
    ensures a < b
  {
    assert (b - a) * size == b * size - a * size;
  }

  /** A whole number of groups is one group exactly when it is one group's size. */
  lemma OneGroupExactly(n: nat, size: int)
    requires size >= 1 && n % size == 0
    ensures n / size == 1 <==> n == size
  {
    var q := n / size;
    assert n == q * size;
    if n == size {
      DivExact(1, size, n);
    }
  }

  lemma DivExact(q: int, size: int, n: int)
    requires size >= 1 && 0 <= q && q * size <= n < (q + 1) * size
    ensures n / size == q
  {
    var d, r := n / size, n % size;
    assert n == d * size + r;
    MulCancelLt(q, d + 1, size);
    MulCancelLt(d, q + 1, size);
  }

  lemma BelowQuotient(k: int, size: int, n: int)
    requires size >= 1 && 0 <= k && (k + 1) * size <= n
    ensures k < n / size
  {
    var d, r := n / size, n % size;
    assert n == d * size + r;
    MulCancelLt(k + 1, d + 1, size);
  }

  /**
   * The export loop: walk the list in steps of `size`, slice at most `size`
   * photos, and keep a slice only when it is full.
   */
  method CollectGroups<T>(s: seq<T>, size: int) returns (groups: seq<seq<T>>)
    requires size >= 1
    ensures groups == FullGroups(s, size)
  {
    groups := [];
    var i := 0;
    while i < |s|
      invariant Collected(s, size, groups, i)
      decreases |s| - i
    {
      var end := if i + size <= |s| then i + size else |s|;
      var segment := s[i..end];
      CollectedStep(s, size, groups, i);
      if |segment| == size {
        groups := groups + [segment];
      }
      i := i + size;
    }
    CollectedDone(s, size, groups, i);
  }

  /**
   * The state of the export loop at offset i: while inside the list, i is
   * the start of the next group; past it, every full group was collected;
   * and what was collected so far are the first full groups.
   */
  ghost predicate Collected<T>(s: seq<T>, size: int, groups: seq<seq<T>>, i: int) {
    && size >= 1 && 0 <= i
    && (i <= |s| ==> i == |groups| * size)
    && (i > |s| ==> |groups| == |s| / size)
    && (forall k :: 0 <= k < |groups| ==> k < |s| / size && groups[k] == Group(s, size, k))
  }

  /** One iteration of the export loop keeps Collected: a whole slice is the next group, a short one is the tail. */
  lemma CollectedStep<T>(s: seq<T>, size: int, groups: seq<seq<T>>, i: int)
    requires Collected(s, size, groups, i) && i < |s|
    ensures var end := if i + size <= |s| then i + size else |s|;
      var segment := s[i..end];
      Collected(s, size, if |segment| == size then groups + [segment] else groups, i + size)
  {
    var k := |groups|;
    if i + size <= |s| {
      GroupAt(s, size, k, i);
      var next := groups + [s[i..i + size]];
      assert forall j :: 0 <= j < k ==> next[j] == groups[j];
    } else {
      LastPartialSlice(|s|, size, k, i);
    }
  }

  /** Once the loop has left the list, the collected groups are all the full groups. */
  lemma CollectedDone<T>(s: seq<T>, size: int, groups: seq<seq<T>>, i: int)
    requires Collected(s, size, groups, i) && i >= |s|
    ensures groups == FullGroups(s, size)
  {
    if i == |s| {
      DivExact(|groups|, size, |s|);
    }
  }

  /** The next slice of a full group starts at k * size and ends at (k + 1) * size. */
  lemma NextGroupStep(k: int, size: int, i: int)
    requires i == k * size
    ensures i + size == (k + 1) * size
  {
  }

  /** A whole slice starting at k * size is group k, and k is below the number of full groups. */
  lemma GroupAt<T>(s: seq<T>, size: int, k: nat, i: int)
    requires size >= 1 && i == k * size && i + size <= |s|
    ensures k < |s| / size && i + size == (k + 1) * size
    ensures s[i..i + size] == Group(s, size, k)
  {
    NextGroupStep(k, size, i);
    BelowQuotient(k, size, |s|);
  }

  /** A short slice starting at k * size is the tail after the k full groups. */
  lemma LastPartialSlice(n: int, size: int, k: nat, i: int)
    requires size >= 1 && i == k * size && i <= n < i + size
    ensures k == n / size
  {
    NextGroupStep(k, size, i);
    DivExact(k, size, n);
  }

  /**
   * The preview loop: advance while a whole group still fits, so only full
   * groups are produced.
   */
  method PreviewGroupsOf<T>(s: seq<T>, size: int) returns (groups: seq<seq<T>>)
    requires size >= 1
    ensures groups == FullGroups(s, size)
  {
    if |s| < size {
      FullGroupsCount(s, size);
      return [];
    }
    groups := [];
    var index := 0;
    while index + size <= |s|
      invariant index == |groups| * size <= |s|
      invariant forall k :: 0 <= k < |groups| ==> k < |s| / size && groups[k] == Group(s, size, k)
    {
      GroupAt(s, size, |groups|, index);
      groups := groups + [s[index..index + size]];
      index := index + size;
    }
    LastPartialSlice(|s|, size, |groups|, index);
  }

  // ---------------------------------------------------------------- naming

  /** The file extension for an output format. */
  function Extension(output: OutputFormat): (ext: string)
    ensures output == Png ==> ext == "png"
    ensures output == Jpeg ==> ext == "jpg"
  {
    if output == Png then "png" else "jpg"
  }

  /** The two-digit, zero-padded group number. */
  function Padded(index: nat): (s: string)
    ensures |s| >= 2 && AllDigits(s)
  {
    PadStart(NatToString(index), 2, '0')
  }

  /** The ZIP entry name of the grid with 1-based number `index`. */
  function EntryName(index: nat, ext: string): (name: string)
    ensures StartsWith(name, "grid-") && EndsWith(name, "." + ext)
  {
    Affixes("grid-", Padded(index), "." + ext);
    "grid-" + Padded(index) + ("." + ext)
  }

  /** p + u + q starts with p and ends with q. */
  lemma Affixes(p: string, u: string, q: string)
    ensures StartsWith(p + u + q, p) && EndsWith(p + u + q, q)
  {
    var s := p + u + q;
    assert s[..|p|] == p;
    assert s[|s| - |q|..] == q;
  }

  /** Different numbers pad to different texts. */
  lemma PaddedInjective(m: nat, n: nat)
    requires Padded(m) == Padded(n)
    ensures m == n
  {
    var a, b := NatToString(m), NatToString(n);
    if |a| < 2 && |b| < 2 {
      assert Padded(m) == ['0'] + a && Padded(n) == ['0'] + b;
      assert a == Padded(m)[1..] == b;
    } else if |a| >= 2 && |b| >= 2 {
      assert a == Padded(m) == Padded(n) == b;
    }
    NatToStringInjective(m, n);
  }

  lemma MiddleEqual(p: string, u: string, v: string, q: string)
    requires p + u + q == p + v + q
    ensures u == v
  {
    assert |u| == |v|;
    assert u == (p + u + q)[|p|..|p| + |u|];
    assert v == (p + v + q)[|p|..|p| + |v|];
  }

  /** Different grid numbers give different ZIP entry names, so no entry overwrites another. */
  lemma EntryNameInjective(m: nat, n: nat, ext: string)
    requires EntryName(m, ext) == EntryName(n, ext)
    ensures m == n
  {
    MiddleEqual("grid-", Padded(m), Padded(n), "." + ext);
    PaddedInjective(m, n);
  }

  /** Numbers below 10 gain one leading zero; the first entries read grid-01, grid-02, ... */
  lemma EntryNameShape(index: nat, ext: string)
    requires 1 <= index < 10
    ensures EntryName(index, ext) == "grid-0" + [DigitChar(index)] + "." + ext
  {
  }

  /** "" for exactly one, "s" otherwise. */
  function Plural(n: int): (s: string)
    ensures s == "" <==> n == 1
  {
    if n == 1 then "" else "s"
  }

  // ---------------------------------------------------------------- decoding and archiving

  /**
   * ensureImages over a list of files: the decoded sizes in order, or the
   * rejection of the first file (in list order) that fails to decode.
   */
  function DecodeAll(files: seq<FileInfo>, decode: FileInfo -> Result<ImageSize, Thrown>): (r: Result<seq<ImageSize>, Thrown>)
    ensures r.Success? <==> forall i :: 0 <= i < |files| ==> decode(files[i]).Success?
    ensures r.Success? ==> |r.value| == |files| && forall i :: 0 <= i < |files| ==> r.value[i] == decode(files[i]).value
    ensures r.Failure? ==> exists i :: 0 <= i < |files| && decode(files[i]) == Failure(r.error)
                                      && forall j :: 0 <= j < i ==> decode(files[j]).Success?
  {
    if files == [] then Success([])
    else
      var init := DecodeAll(files[..|files| - 1], decode);
      var last := decode(files[|files| - 1]);
      assert forall i :: 0 <= i < |files| - 1 ==> files[..|files| - 1][i] == files[i];
      if init.Failure? then Failure(init.error)
      else if last.Failure? then Failure(last.error)
      else Success(init.value + [last.value])
  }

  /** One file of the archive. */
  datatype ZipEntry = ZipEntry(name: string, blob: Option<Blob>)

  /**
   * The archive entries for the per-group composition results, numbered
   * from 1 in group order; the first failing group aborts with its error.
   */
  function ZipEntries(results: seq<Result<Option<Blob>, Thrown>>, ext: string): Result<seq<ZipEntry>, Thrown> {
    if results == [] then Success([])
    else
      match ZipEntries(results[..|results| - 1], ext)
      case Failure(e) => Failure(e)
      case Success(entries) =>
        match results[|results| - 1]
        case Failure(e) => Failure(e)
        case Success(blob) => Success(entries + [ZipEntry(EntryName(|results|, ext), blob)])
  }

  /** The entries exist exactly when every group composed; entry k is grid number k + 1 holding group k's blob. */
  lemma ZipEntriesSuccess(results: seq<Result<Option<Blob>, Thrown>>, ext: string)
    ensures ZipEntries(results, ext).Success? <==> forall k :: 0 <= k < |results| ==> results[k].Success?
    ensures ZipEntries(results, ext).Success? ==>
      var entries := ZipEntries(results, ext).value;
      |entries| == |results|
      && forall k :: 0 <= k < |results| ==> entries[k] == ZipEntry(EntryName(k + 1, ext), results[k].value)
  {
    ZipEntriesSucceed(results, ext);
    if ZipEntries(results, ext).Success? {
      ZipEntriesContents(results, ext);
    }
  }

  /** The archive succeeds exactly when every result is a success. */
  lemma {:induction false} ZipEntriesSucceed(results: seq<Result<Option<Blob>, Thrown>>, ext: string)
    ensures ZipEntries(results, ext).Success? <==> forall k :: 0 <= k < |results| ==> results[k].Success?
  {
    if results != [] {
      var init := results[..|results| - 1];
      ZipEntriesSucceed(init, ext);
      ZipEntriesLast(results, ext);
      assert forall k :: 0 <= k < |init| ==> init[k] == results[k];
    }
  }

  /** The last result decides a non-empty archive once the others have succeeded. */
  lemma ZipEntriesLast(results: seq<Result<Option<Blob>, Thrown>>, ext: string)
    requires results != []
    ensures var init, last := results[..|results| - 1], results[|results| - 1];
      && (ZipEntries(results, ext).Success? <==> ZipEntries(init, ext).Success? && last.Success?)
      && (ZipEntries(results, ext).Success? ==>
            ZipEntries(results, ext).value
            == ZipEntries(init, ext).value + [ZipEntry(EntryName(|results|, ext), last.value)])
  {
  }

  /** A successful archive has one entry per result, entry k named after grid k + 1. */
  lemma ZipEntriesContents(results: seq<Result<Option<Blob>, Thrown>>, ext: string)
    requires ZipEntries(results, ext).Success?
    ensures var entries := ZipEntries(results, ext).value;
      |entries| == |results|
      && forall k :: 0 <= k < |results| ==>
           results[k].Success? && entries[k] == ZipEntry(EntryName(k + 1, ext), results[k].value)
  {
    if results == [] {
      assert ZipEntries(results, ext).value == [];
    }
    forall k | 0 <= k < |results|
      ensures results[k].Success? && ZipEntries(results, ext).value[k] == ZipEntry(EntryName(k + 1, ext), results[k].value)
    {
      ZipEntryAt(results, ext, k);
    }
    if results != [] {
      ZipEntryAt(results, ext, 0);
    }
  }

  /** Entry k of a successful archive: there are as many entries as results, and entry k is result k named grid k + 1. */
  lemma {:induction false} ZipEntryAt(results: seq<Result<Option<Blob>, Thrown>>, ext: string, k: nat)
    requires ZipEntries(results, ext).Success? && k < |results|
    ensures var entries := ZipEntries(results, ext).value;
      && |entries| == |results|
      && results[k].Success?
      && entries[k] == ZipEntry(EntryName(k + 1, ext), results[k].value)
    decreases |results|
  {
    var init := results[..|results| - 1];
    ZipEntriesLast(results, ext);
    if k < |init| {
      ZipEntryAt(init, ext, k);
      assert init[k] == results[k];
    } else if init != [] {
      ZipEntryAt(init, ext, 0);
    } else {
      assert ZipEntries(init, ext).value == [];
    }
  }

  /** A failed archive carries the error of the first group that failed; every earlier group composed. */
  lemma {:induction false} ZipEntriesFirstFailure(results: seq<Result<Option<Blob>, Thrown>>, ext: string)
    requires ZipEntries(results, ext).Failure?
    ensures exists k :: 0 <= k < |results| && results[k] == Failure(ZipEntries(results, ext).error)
                        && forall j :: 0 <= j < k ==> results[j].Success?
  {
    var init := results[..|results| - 1];
    assert forall k :: 0 <= k < |init| ==> init[k] == results[k];
    if ZipEntries(init, ext).Failure? {
      ZipEntriesFirstFailure(init, ext);
    } else {
      ZipEntriesSuccess(init, ext);
      var k := |results| - 1;
      assert results[k] == Failure(ZipEntries(results, ext).error);
      assert forall j :: 0 <= j < k ==> results[j].Success?;
    }
  }

  /** One step of the archive loop: the next result either adds entry g + 1 or aborts with its error. */
  lemma ZipEntriesStep(results: seq<Result<Option<Blob>, Thrown>>, g: nat, entries: seq<ZipEntry>, ext: string)
    requires g < |results| && ZipEntries(results[..g], ext) == Success(entries)
    ensures results[g].Success? ==>
      ZipEntries(results[..g + 1], ext) == Success(entries + [ZipEntry(EntryName(g + 1, ext), results[g].value)])
    ensures results[g].Failure? ==> ZipEntries(results[..g + 1], ext) == Failure(results[g].error)
  {
    var prefix := results[..g + 1];
    assert prefix[..g] == results[..g];
    assert prefix[g] == results[g];
  }

  /** No two entries of an archive share a name. */
  lemma ZipEntryNamesDistinct(results: seq<Result<Option<Blob>, Thrown>>, ext: string)
    requires ZipEntries(results, ext).Success?
    ensures var entries := ZipEntries(results, ext).value;
      forall i, j :: 0 <= i < j < |entries| ==> entries[i].name != entries[j].name
  {
    var entries := ZipEntries(results, ext).value;
    forall i, j | 0 <= i < j < |entries|
      ensures entries[i].name != entries[j].name
    {
      ZipEntryNameAt(results, ext, i);
      ZipEntryNameAt(results, ext, j);
      EntryNamesDiffer(i + 1, j + 1, ext);
    }
  }

  /** Entry k of an archive is named after grid number k + 1. */
  lemma ZipEntryNameAt(results: seq<Result<Option<Blob>, Thrown>>, ext: string, k: nat)
    requires ZipEntries(results, ext).Success? && k < |ZipEntries(results, ext).value|
    ensures ZipEntries(results, ext).value[k].name == EntryName(k + 1, ext)
  {
    if results != [] {
      ZipEntryAt(results, ext, 0);
      ZipEntryAt(results, ext, k);
    }
  }

  /** Two different grid numbers name two different entries. */
  lemma EntryNamesDiffer(m: nat, n: nat, ext: string)
    requires m != n
    ensures EntryName(m, ext) != EntryName(n, ext)
  {
    if EntryName(m, ext) == EntryName(n, ext) {
      EntryNameInjective(m, n, ext);
    }
  }

  /** A failure among the first m results is the failure of the whole list. */
  lemma {:induction false} ZipEntriesPrefixFailure(results: seq<Result<Option<Blob>, Thrown>>, m: nat, ext: string)
    requires m <= |results| && ZipEntries(results[..m], ext).Failure?
    ensures ZipEntries(results, ext) == ZipEntries(results[..m], ext)
    decreases |results| - m
  {
    if m < |results| {
      assert results[..m + 1][..m] == results[..m];
      ZipEntriesPrefixFailure(results, m + 1, ext);
    } else {
      assert results[..m] == results;
    }
  }

  /** The decoder only yields images with a positive size. */
  ghost predicate PositiveDecoder(decode: FileInfo -> Result<ImageSize, Thrown>) {
    forall f :: decode(f).Success? ==> decode(f).value.width > 0 && decode(f).value.height > 0
  }
}
