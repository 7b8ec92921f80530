/**
  The naming half of `handleDownloadAll` in `App.tsx`: which images go into
  the archive, under which entry name, with which source. Entry names start
  with the 1-based position zero-padded to the digit count of the list
  length, so they are pairwise distinct and no entry overwrites another.
 */
module DownloadNames {

  import opened Common
  import opened Types
  import opened Text

  /** A JavaScript string is truthy when present and non-empty. */
  predicate Truthy(s: Option<string>) {
    s.Some? && s.value != ""
  }

  /** `null` and `""` are the falsy values of a `string | null`; every other string is truthy. */
  lemma FalsyValues(s: Option<string>)
    ensures !Truthy(s) <==> s == None || s == Some("")
  {
  }

  /** `String(images.length).length`. */
  function DigitCount(n: nat): (r: nat)
    ensures r >= 1
  {
    |NatToDecimal(n)|
  }

  function Pow10(k: nat): (r: nat)
    ensures r >= 1
  {
    if k == 0 then 1 else 10 * Pow10(k - 1)
  }

  /** `DigitCount(n)` is the number of decimal digits of `n`: `n` lies below `10^r` and, unless it is 0, at or above `10^(r-1)`. */
  lemma {:induction false} DigitCountBounds(n: nat)
    ensures n < Pow10(DigitCount(n))
    ensures n >= 1 ==> Pow10(DigitCount(n) - 1) <= n
  {
    if n >= 10 {
      var k := DigitCount(n / 10);
      assert DigitCount(n) == k + 1;
      DigitCountBounds(n / 10);
      assert n == 10 * (n / 10) + n % 10;
      assert Pow10(k + 1) == 10 * Pow10(k);
      assert Pow10(k) == 10 * Pow10(k - 1) || k == 0;
    }
  }

  /** `String(index + 1).padStart(padding, '0')`. */
  function FileIndex(index: nat, count: nat): (r: string)
    ensures |r| >= DigitCount(count)
  {
    PadStartZeros(NatToDecimal(index + 1), DigitCount(count))
  }

  /**
    The prefix is a digit string that ends with the decimal 1-based
    position and reads back as that position.
   */
  lemma FileIndexValue(index: nat, count: nat)
    ensures var d := NatToDecimal(index + 1);
            |d| <= |FileIndex(index, count)| && FileIndex(index, count)[|FileIndex(index, count)| - |d|..] == d
    ensures forall i :: 0 <= i < |FileIndex(index, count)| ==> IsDigit(FileIndex(index, count)[i])
    ensures DecimalValue(FileIndex(index, count)) == index + 1
  {
    PadStartZerosShape(NatToDecimal(index + 1), DigitCount(count));
    PaddedDecimalValue(index + 1, DigitCount(count));
  }

  /** Every prefix in a list of `count` images has exactly the digit count of `count`. */
  lemma FileIndexLength(index: nat, count: nat)
    requires index < count
    ensures |FileIndex(index, count)| == DigitCount(count)
  {
    DigitCountMonotone(index + 1, count);
  }

  /** Prefixes of different positions differ. */
  lemma FileIndexInjective(i: nat, j: nat, count: nat)
    requires FileIndex(i, count) == FileIndex(j, count)
    ensures i == j
  {
    PaddedDecimalInjective(i + 1, j + 1, DigitCount(count));
  }

  /**
    The name without its extension: cut at the last `'.'` only when that dot
    is not the first character, so `".png"` and names without a dot are kept
    whole.
   */
  function Stem(name: string): (r: string)
    ensures LastIndexOf(name, '.') > 0 ==>
              && 0 < |r| < |name|
              && name == r + "." + name[|r| + 1..]
              && forall j :: |r| < j < |name| ==> name[j] != '.'
    ensures LastIndexOf(name, '.') <= 0 ==> r == name
  {
    var dot := LastIndexOf(name, '.');
    if dot > 0 then
      assert name == name[..dot] + "." + name[dot + 1..];
      name[..dot]
    else name
  }

  /** One archive entry: its file name and the data URL it is written from. */
  datatype ZipEntry = ZipEntry(name: string, src: string)

  /**
    The entry for the image at `index` of `count`: the processed source is
    preferred over the original; without either nothing is written. A
    processed image is named `prefix_stem.format`, any other keeps
    `prefix_originalName`.
   */
  function EntryFor(image: ImageInfo, index: nat, count: nat, format: string): (r: Option<ZipEntry>)
    ensures r.Some? <==> Truthy(image.processedSrc) || image.originalSrc != ""
    ensures r.Some? && Truthy(image.processedSrc) ==>
              && r.value.src == image.processedSrc.value
              && r.value.name == FileIndex(index, count) + "_" + Stem(image.file.name) + "." + format
    ensures r.Some? && !Truthy(image.processedSrc) ==>
              && r.value.src == image.originalSrc
              && r.value.name == FileIndex(index, count) + "_" + image.file.name
  {
    var src := if Truthy(image.processedSrc) then image.processedSrc.value else image.originalSrc;
    if src == "" then None
    else
      var prefix := FileIndex(index, count);
      var name :=
        if Truthy(image.processedSrc) then prefix + "_" + Stem(image.file.name) + "." + format
        else prefix + "_" + image.file.name;
      Some(ZipEntry(name, src))
  }

  /** The entries written for `images[from..]`, in list order. */
  function EntriesFrom(images: seq<ImageInfo>, from: nat, format: string): (r: seq<(nat, ZipEntry)>)
    requires from <= |images|
    ensures forall k :: 0 <= k < |r| ==> from <= r[k].0 < |images|
                                          && EntryFor(images[r[k].0], r[k].0, |images|, format) == Some(r[k].1)
    ensures forall k, l :: 0 <= k < l < |r| ==> r[k].0 < r[l].0
  {
    CollectFacts(images, from, format);
    CollectOrdered(images, from, format);
    Collect(images, from, format)
  }

  /** The loop over `images[from..]`, one image at a time. */
  function Collect(images: seq<ImageInfo>, from: nat, format: string): seq<(nat, ZipEntry)>
    requires from <= |images|
    decreases |images| - from
  {
    if from == |images| then []
    else
      var rest := Collect(images, from + 1, format);
      match EntryFor(images[from], from, |images|, format)
      case None => rest
      case Some(e) => [(from, e)] + rest
  }

  /** Each entry of the loop is the one its image's position gives. */
  lemma {:induction false} CollectFacts(images: seq<ImageInfo>, from: nat, format: string)
    requires from <= |images|
    ensures forall k :: 0 <= k < |Collect(images, from, format)| ==>
              && from <= Collect(images, from, format)[k].0 < |images|
              && EntryFor(images[Collect(images, from, format)[k].0], Collect(images, from, format)[k].0, |images|, format)
                 == Some(Collect(images, from, format)[k].1)
    decreases |images| - from
  {
    if from < |images| {
      CollectFacts(images, from + 1, format);
      var e := EntryFor(images[from], from, |images|, format);
      if e.Some? {
        assert Collect(images, from, format) == [(from, e.value)] + Collect(images, from + 1, format);
      }
    }
  }

  /** The loop from `from` only tags entries with positions from `from` on. */
  lemma {:induction false} CollectFrom(images: seq<ImageInfo>, from: nat, format: string)
    requires from <= |images|
    ensures forall k :: 0 <= k < |Collect(images, from, format)| ==> from <= Collect(images, from, format)[k].0
    decreases |images| - from
  {
    if from < |images| {
      CollectFrom(images, from + 1, format);
      var e := EntryFor(images[from], from, |images|, format);
      if e.Some? {
        assert Collect(images, from, format) == [(from, e.value)] + Collect(images, from + 1, format);
      }
    }
  }

  /** Putting a smaller position in front of an increasing list keeps it increasing. */
  lemma ConsOrdered(x: (nat, ZipEntry), rest: seq<(nat, ZipEntry)>)
    requires forall k :: 0 <= k < |rest| ==> x.0 < rest[k].0
    requires forall k, l :: 0 <= k < l < |rest| ==> rest[k].0 < rest[l].0
    ensures forall k, l :: 0 <= k < l < |[x] + rest| ==> ([x] + rest)[k].0 < ([x] + rest)[l].0
  {
    var r := [x] + rest;
    forall k, l | 0 <= k < l < |r| ensures r[k].0 < r[l].0 {
      assert r[l] == rest[l - 1];
      if k > 0 {
        assert r[k] == rest[k - 1];
      }
    }
  }

  /** The loop's entries come in increasing position. */
  lemma {:induction false} CollectOrdered(images: seq<ImageInfo>, from: nat, format: string)
    requires from <= |images|
    ensures forall k, l :: 0 <= k < l < |Collect(images, from, format)| ==>
              Collect(images, from, format)[k].0 < Collect(images, from, format)[l].0
    decreases |images| - from
  {
    if from < |images| {
      CollectOrdered(images, from + 1, format);
      CollectFrom(images, from + 1, format);
      var rest := Collect(images, from + 1, format);
      var e := EntryFor(images[from], from, |images|, format);
      if e.Some? {
        assert Collect(images, from, format) == [(from, e.value)] + rest;
        ConsOrdered((from, e.value), rest);
      } else {
        assert Collect(images, from, format) == rest;
      }
    }
  }

  /** Every image from `from` on that has something to write gets an entry; `k` is its place. */
  lemma EntriesFromComplete(images: seq<ImageInfo>, from: nat, format: string, i: nat)
    returns (k: nat)
    requires from <= i < |images|
    requires EntryFor(images[i], i, |images|, format).Some?
    ensures k < |EntriesFrom(images, from, format)| && EntriesFrom(images, from, format)[k].0 == i
  {
    k := CollectComplete(images, from, format, i);
  }

  /** `EntriesFromComplete` over the loop, by induction on the distance to `i`. */
  lemma {:induction false} CollectComplete(images: seq<ImageInfo>, from: nat, format: string, i: nat)
    returns (k: nat)
    requires from <= i < |images|
    requires EntryFor(images[i], i, |images|, format).Some?
    ensures k < |Collect(images, from, format)| && Collect(images, from, format)[k].0 == i
    decreases i - from
  {
    var r := Collect(images, from, format);
    var rest := Collect(images, from + 1, format);
    var e := EntryFor(images[from], from, |images|, format);
    if i == from {
      assert r == [(from, e.value)] + rest;
      k := 0;
    } else if e.Some? {
      var j := CollectComplete(images, from + 1, format, i);
      assert r == [(from, e.value)] + rest;
      ConcatIndex([(from, e.value)], rest, j + 1);
      k := j + 1;
    } else {
      k := CollectComplete(images, from + 1, format, i);
    }
  }

  /**
    The archive contents of `handleDownloadAll`, each entry tagged with
    its image's position. Entry names are pairwise distinct.
   */
  function Entries(images: seq<ImageInfo>, format: string): (r: seq<(nat, ZipEntry)>)
    ensures forall k :: 0 <= k < |r| ==> r[k].0 < |images| && EntryFor(images[r[k].0], r[k].0, |images|, format) == Some(r[k].1)
    ensures forall i :: 0 <= i < |images| && EntryFor(images[i], i, |images|, format).Some? ==>
              exists k :: 0 <= k < |r| && r[k].0 == i
    ensures forall k, l :: 0 <= k < l < |r| ==> r[k].0 < r[l].0
    ensures forall k, l :: 0 <= k < l < |r| ==> r[k].1.name != r[l].1.name
  {
    var r := EntriesFrom(images, 0, format);
    forall i | 0 <= i < |images| && EntryFor(images[i], i, |images|, format).Some?
      ensures exists k :: 0 <= k < |r| && r[k].0 == i
    {
      var k := EntriesFromComplete(images, 0, format, i);
    }
    forall k, l | 0 <= k < l < |r| ensures r[k].1.name != r[l].1.name {
      DistinctPositionsDistinctNames(images, format, r[k].0, r[l].0, r[k].1, r[l].1);
    }
    r
  }

  /** Entries of two different positions have different names: their fixed-width prefixes differ. */
  lemma DistinctPositionsDistinctNames(images: seq<ImageInfo>, format: string, i: nat, j: nat, a: ZipEntry, b: ZipEntry)
    requires i < |images| && j < |images| && i != j
    requires EntryFor(images[i], i, |images|, format) == Some(a)
    requires EntryFor(images[j], j, |images|, format) == Some(b)
    ensures a.name != b.name
  {
    var n := |images|;
    FileIndexLength(i, n);
    FileIndexLength(j, n);
    NameStartsWithIndex(images[i], i, n, format, a);
    NameStartsWithIndex(images[j], j, n, format, b);
    if a.name == b.name {
      FileIndexInjective(i, j, n);
    }
  }

  /** An entry's name opens with its position's prefix. */
  lemma NameStartsWithIndex(image: ImageInfo, index: nat, count: nat, format: string, e: ZipEntry)
    requires EntryFor(image, index, count, format) == Some(e)
    ensures |FileIndex(index, count)| <= |e.name| && e.name[..|FileIndex(index, count)|] == FileIndex(index, count)
  {
    var p := FileIndex(index, count);
    assert e.name == p + e.name[|p|..];
  }

  /** What the download button ends with. */
  datatype DownloadOutcome = NothingToDownload | Archive(entries: seq<ZipEntry>)

  /** `handleDownloadAll`: an archive when at least one entry was written, otherwise a notice. */
  function DownloadAll(images: seq<ImageInfo>, format: string): (r: DownloadOutcome)
    ensures r.NothingToDownload? <==>
              forall i :: 0 <= i < |images| ==> !Truthy(images[i].processedSrc) && images[i].originalSrc == ""
    ensures r.Archive? ==> |r.entries| > 0
    ensures r.Archive? ==> |r.entries| == |Entries(images, format)|
    ensures r.Archive? ==> forall k :: 0 <= k < |r.entries| ==> r.entries[k] == Entries(images, format)[k].1
    ensures r.Archive? ==> forall k, l :: 0 <= k < l < |r.entries| ==> r.entries[k].name != r.entries[l].name
  {
    var es := Entries(images, format);
    if |es| == 0 then
      assert forall i :: 0 <= i < |images| ==> EntryFor(images[i], i, |images|, format).None?;
      NothingToDownload
    else
      var k := 0;
      assert EntryFor(images[es[k].0], es[k].0, |images|, format).Some?;
      Archive(seq(|es|, k requires 0 <= k < |es| => es[k].1))
  }
}
