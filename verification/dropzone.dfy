/**
  The URL import of `components/ImageDropzone.tsx`: the textarea is split
  into a list of URLs, each URL is fetched through a list of CORS proxies
  tried in order, the fetched files are handed to the gallery and the URLs
  that failed are put back into the textarea for a retry. The network is
  replaced by the outcome each proxy would give, supplied per URL.
 */
module Dropzone {

  import opened Common
  import opened Types
  import opened Text

  // ---------------------------------------------------------------------
  // Dropped and selected files
  // ---------------------------------------------------------------------

  /**
    `handleDrop` and `handleFileSelect`: a non-empty file list is handed to
    the gallery as is, an empty one is ignored.
   */
  function FilesToAdd(files: seq<File>): (r: Option<seq<File>>)
    ensures r.None? <==> |files| == 0
    ensures r.Some? ==> r.value == files
  {
    if |files| > 0 then Some(files) else None
  }

  // ---------------------------------------------------------------------
  // The URL list
  // ---------------------------------------------------------------------

  /** An entry of the URL list: non-empty, trimmed, a single line. */
  predicate IsEntry(u: string) {
    u != "" && IsTrimmed(u) && '\n' !in u
  }

  /** A line made of whitespace only (the empty line included). */
  predicate IsBlank(line: string) {
    forall i :: 0 <= i < |line| ==> IsJsWhitespace(line[i])
  }

  /** One line's contribution: its trimmed text, unless the line is blank. */
  function TrimmedLine(line: string): (r: seq<string>)
    ensures |r| <= 1
    ensures |r| == 0 <==> Trim(line) == ""
    ensures |r| == 1 ==> r[0] == Trim(line)
  {
    var t := Trim(line);
    if t == "" then [] else [t]
  }

  /** A single line contributes an entry, if anything. */
  lemma TrimmedLineEntry(line: string)
    requires '\n' !in line
    ensures forall i :: 0 <= i < |TrimmedLine(line)| ==> IsEntry(TrimmedLine(line)[i])
  {
    TrimKeepsOut(line, '\n');
  }

  /** A line is dropped exactly when it is blank: it trims to the empty text just then. */
  lemma BlankIffTrimsToNothing(line: string)
    ensures Trim(line) == "" <==> IsBlank(line)
    ensures TrimmedLine(line) == [] <==> IsBlank(line)
  {
    var t := Trim(line);
    var k := TrimAmidWhitespace(line);
    if t != "" {
      assert line[k] == t[0];
    }
  }

  /** The trimmed lines of a list of single lines, with blank lines dropped. */
  function NonBlank(lines: seq<string>): (r: seq<string>)
    ensures |r| <= |lines|
  {
    FlatMapShrinks(TrimmedLine, lines);
    FlatMap(TrimmedLine, lines)
  }

  /** Every line whose trimmed text is not empty contributes that text, at place `k`. */
  lemma NonBlankKeepsLines(lines: seq<string>, i: nat) returns (k: nat)
    requires i < |lines| && Trim(lines[i]) != ""
    ensures k < |NonBlank(lines)| && NonBlank(lines)[k] == Trim(lines[i])
  {
    k := FlatMapKeeps(TrimmedLine, lines, i, 0);
  }

  /** Every entry of the filtered list is the non-empty trimmed text of one of the lines. */
  lemma NonBlankSource(lines: seq<string>, k: nat) returns (i: nat)
    requires k < |NonBlank(lines)|
    ensures i < |lines| && Trim(lines[i]) != "" && NonBlank(lines)[k] == Trim(lines[i])
  {
    var m;
    i, m := FlatMapSource(TrimmedLine, lines, k);
  }

  /** Lines free of `'\n'` give entries only. */
  lemma NonBlankEntries(lines: seq<string>)
    requires forall i :: 0 <= i < |lines| ==> '\n' !in lines[i]
    ensures forall k :: 0 <= k < |NonBlank(lines)| ==> IsEntry(NonBlank(lines)[k])
  {
    forall k | 0 <= k < |NonBlank(lines)|
      ensures IsEntry(NonBlank(lines)[k])
    {
      var i, m := FlatMapSource(TrimmedLine, lines, k);
      TrimmedLineEntry(lines[i]);
    }
  }

  /**
    `urls.split('\n').map(u => u.trim()).filter(Boolean)`: every entry is
    non-empty, trimmed and a single line.
   */
  function ParseUrlList(text: string): (r: seq<string>)
    ensures forall i :: 0 <= i < |r| ==> IsEntry(r[i])
  {
    var lines := Split(text, '\n');
    NonBlankEntries(lines);
    NonBlank(lines)
  }

  /** Every line of the text that is not blank contributes its trimmed text to the list. */
  lemma ParseUrlListKeepsLines(text: string)
    ensures forall i :: 0 <= i < |Split(text, '\n')| && !IsBlank(Split(text, '\n')[i]) ==>
              Trim(Split(text, '\n')[i]) in ParseUrlList(text)
  {
    var lines := Split(text, '\n');
    forall i | 0 <= i < |lines| && !IsBlank(lines[i])
      ensures Trim(lines[i]) in NonBlank(lines)
    {
      BlankIffTrimsToNothing(lines[i]);
      var k := NonBlankKeepsLines(lines, i);
    }
  }

  /** Every URL of the list is the trimmed text of one of the lines. */
  lemma ParseUrlListSource(text: string, k: nat) returns (i: nat)
    requires k < |ParseUrlList(text)|
    ensures i < |Split(text, '\n')| && !IsBlank(Split(text, '\n')[i])
    ensures ParseUrlList(text)[k] == Trim(Split(text, '\n')[i])
  {
    i := NonBlankSource(Split(text, '\n'), k);
    BlankIffTrimsToNothing(Split(text, '\n')[i]);
  }

  /** A single line gives its trimmed text, or nothing when it is blank. */
  lemma ParseUrlListOneLine(line: string)
    requires '\n' !in line
    ensures ParseUrlList(line) == if IsBlank(line) then [] else [Trim(line)]
  {
    SplitPrefix(line, "", '\n');
    BlankIffTrimsToNothing(line);
    assert line + "" == line;
    assert Split(line, '\n') == [line];
    assert FlatMap(TrimmedLine, [line]) == TrimmedLine(line) + FlatMap(TrimmedLine, [line][1..]);
  }

  /** Filtering distributes over concatenation of line lists. */
  lemma NonBlankConcat(x: seq<string>, y: seq<string>)
    ensures NonBlank(x + y) == NonBlank(x) + NonBlank(y)
  {
    FlatMapConcat(TrimmedLine, x, y);
  }

  /**
    Input order is kept: the URLs of a text made of two blocks of lines are
    the URLs of the first block followed by those of the second.
   */
  lemma ParseUrlListConcat(a: string, b: string)
    ensures ParseUrlList(a + "\n" + b) == ParseUrlList(a) + ParseUrlList(b)
  {
    SplitConcat(a, b, '\n');
    NonBlankConcat(Split(a, '\n'), Split(b, '\n'));
  }

  /** A list that is already non-blank and trimmed is kept as is. */
  lemma NonBlankOfTrimmed(xs: seq<string>)
    requires forall i :: 0 <= i < |xs| ==> IsEntry(xs[i])
    ensures NonBlank(xs) == xs
  {
    forall i | 0 <= i < |xs|
      ensures TrimmedLine(xs[i]) == [xs[i]]
    {
      TrimTrimmed(xs[i]);
    }
    FlatMapIdentity(TrimmedLine, xs);
  }

  /**
    The retry round trip: writing a list of parsed URLs back one per line
    and parsing the text again gives exactly that list.
   */
  lemma RetryRoundTrip(urls: seq<string>)
    requires forall i :: 0 <= i < |urls| ==> IsEntry(urls[i])
    ensures ParseUrlList(Join(urls, '\n')) == urls
  {
    var text := Join(urls, '\n');
    if |urls| > 0 {
      assert forall i :: 0 <= i < |urls| ==> '\n' !in urls[i];
      SplitJoin(urls, '\n');
      assert Split(text, '\n') == urls;
      NonBlankOfTrimmed(urls);
      assert ParseUrlList(text) == NonBlank(urls);
    } else {
      assert text == "";
      ParseUrlListEmpty();
    }
  }

  // ---------------------------------------------------------------------
  // The file made from a URL
  // ---------------------------------------------------------------------

  /**
    `url.substring(url.lastIndexOf('/') + 1).split('?')[0] || 'image.jpg'`:
    the last path segment without its query, never empty, free of `'/'`
    and `'?'`.
   */
  function FileNameFromUrl(url: string): (r: string)
    ensures r != ""
    ensures forall i :: 0 <= i < |r| ==> r[i] != '/' && r[i] != '?'
  {
    var name := LastSegment(url);
    assert SegmentFrom(url, LastIndexOf(url, '/') + 1, name);
    if name == "" then "image.jpg" else name
  }

  /**
    The text after the last `'/'`, up to the first `'?'`: it starts right
    after that slash, holds neither character, and is followed by a `'?'`
    or by the end of the URL.
   */
  function LastSegment(url: string): (r: string)
    ensures SegmentFrom(url, LastIndexOf(url, '/') + 1, r)
  {
    var start := LastIndexOf(url, '/') + 1;
    SegmentAfter(url, start);
    Split(url[start..], '?')[0]
  }

  /**
    `name` is the text of `url` from `start` on: free of `'/'` and `'?'`, and
    followed by a `'?'` or by the end of the URL.
   */
  predicate SegmentFrom(url: string, start: nat, name: string) {
    && start + |name| <= |url| && name == url[start..start + |name|]
    && (forall i :: 0 <= i < |name| ==> name[i] != '/' && name[i] != '?')
    && (start + |name| < |url| ==> url[start + |name|] == '?')
  }

  /** The first `'?'`-piece of the text from `start`, where no `'/'` follows `start`. */
  lemma SegmentAfter(url: string, start: nat)
    requires start <= |url|
    requires forall j :: start <= j < |url| ==> url[j] != '/'
    ensures SegmentFrom(url, start, Split(url[start..], '?')[0])
  {
    var tail := url[start..];
    var name := Split(tail, '?')[0];
    SplitPieceFromText(tail, '?');
    NoCharAt(name, '?');
    assert forall i :: 0 <= i < |name| ==> name[i] == url[start + i];
  }

  /** A text without `c` has no index holding `c`. */
  lemma NoCharAt(s: string, c: char)
    requires c !in s
    ensures forall i :: 0 <= i < |s| ==> s[i] != c
  {
    forall i | 0 <= i < |s| ensures s[i] != c {
      assert s[i] in s;
    }
  }

  /**
    The first piece of a split is a prefix of the text, ended by the
    separator unless it is the whole text.
   */
  lemma {:induction false} SplitPieceFromText(s: string, c: char)
    ensures |Split(s, c)[0]| <= |s| && Split(s, c)[0] == s[..|Split(s, c)[0]|]
    ensures |Split(s, c)[0]| < |s| ==> s[|Split(s, c)[0]|] == c
  {
    if |s| > 0 {
      SplitPieceFromText(s[1..], c);
    }
  }

  /** `https://host/dir/name?query` names its file `name`, whatever the host and query. */
  lemma FileNameOfUrl(prefix: string, name: string, query: string)
    requires name != ""
    requires forall i :: 0 <= i < |name| ==> name[i] != '/' && name[i] != '?'
    requires forall i :: 0 <= i < |query| ==> query[i] != '/'
    ensures FileNameFromUrl(prefix + "/" + name + "?" + query) == name
    ensures FileNameFromUrl(prefix + "/" + name) == name
  {
    var t := name + "?" + query;
    assert forall i :: 0 <= i < |t| ==> t[i] != '/' by {
      forall i | 0 <= i < |t| ensures t[i] != '/' {
        if i < |name| { assert t[i] == name[i]; }
        else if i > |name| { assert t[i] == query[i - |name| - 1]; }
      }
    }
    LastIndexOfBeforeSuffix(prefix, '/', t);
    assert prefix + "/" + name + "?" + query == prefix + ['/'] + t;
    assert (prefix + ['/'] + t)[|prefix| + 1..] == t;
    SplitPrefix(name, "?" + query, '?');
    assert Split("?" + query, '?')[0] == "";
    assert name + "?" + query == name + ("?" + query);

    LastIndexOfBeforeSuffix(prefix, '/', name);
    assert prefix + "/" + name == prefix + ['/'] + name;
    assert (prefix + ['/'] + name)[|prefix| + 1..] == name;
    SplitPrefix(name, "", '?');
    assert name + "" == name;
  }

  /** `blob.type || 'image/jpeg'`. */
  function MimeOrDefault(blobType: string): (r: string)
    ensures r != ""
    ensures blobType != "" ==> r == blobType
    ensures blobType == "" ==> r == "image/jpeg"
  {
    if blobType == "" then "image/jpeg" else blobType
  }

  // ---------------------------------------------------------------------
  // Proxy fallback
  // ---------------------------------------------------------------------

  /** What one proxy request ends in: a response, or a rejection whose reason may be falsy (`None`). */
  datatype ProxyOutcome =
    | Responded(ok: bool, status: int, blobType: string)
    | Rejected(reason: Option<string>)

  /** The error `fetchWithFallback` throws. */
  datatype FetchError =
    | BadStatus(status: int)
    | Failure(reason: string)
    | NoProxyWorked

  predicate Succeeds(o: ProxyOutcome) {
    o.Responded? && o.ok
  }

  /** The `lastError` a failed attempt leaves behind (`None` when the rejection value is falsy). */
  function AttemptError(o: ProxyOutcome): (r: Option<FetchError>)
    requires !Succeeds(o)
    ensures r.None? <==> o.Rejected? && o.reason.None?
    ensures o.Responded? ==> r == Some(BadStatus(o.status))
    ensures o.Rejected? && o.reason.Some? ==> r == Some(Failure(o.reason.value))
  {
    match o
    case Responded(_, status, _) => Some(BadStatus(status))
    case Rejected(reason) => if reason.Some? then Some(Failure(reason.value)) else None
  }

  /** The position of the first successful proxy, if any. */
  function FirstSuccess(outcomes: seq<ProxyOutcome>): (r: Option<nat>)
    ensures r.Some? ==> r.value < |outcomes| && Succeeds(outcomes[r.value])
                        && forall j :: 0 <= j < r.value ==> !Succeeds(outcomes[j])
    ensures r.None? ==> forall j :: 0 <= j < |outcomes| ==> !Succeeds(outcomes[j])
  {
    if |outcomes| == 0 then None
    else if Succeeds(outcomes[0]) then Some(0)
    else
      match FirstSuccess(outcomes[1..])
      case None => None
      case Some(k) => Some(k + 1)
  }

  /**
    The reference result: the first successful response, otherwise the
    error of the last attempt, otherwise (no attempt, or a falsy last
    rejection) the generic error.
   */
  function FetchResult(outcomes: seq<ProxyOutcome>): Result<ProxyOutcome, FetchError> {
    match FirstSuccess(outcomes)
    case Some(k) => Ok(outcomes[k])
    case None =>
      if |outcomes| == 0 then Err(NoProxyWorked)
      else Err(AttemptError(outcomes[|outcomes| - 1]).GetOr(NoProxyWorked))
  }

  /**
    `fetchWithFallback`: the proxies are tried in order and the loop stops
    at the first ok response; `tried` counts the proxies contacted, so the
    ones after a success are never asked.
   */
  method FetchWithFallback(outcomes: seq<ProxyOutcome>) returns (r: Result<ProxyOutcome, FetchError>, tried: nat)
    ensures r == FetchResult(outcomes)
    ensures r.Ok? <==> FirstSuccess(outcomes).Some?
    ensures r.Ok? ==> tried == FirstSuccess(outcomes).value + 1 && Succeeds(r.value)
    ensures r.Err? ==> tried == |outcomes|
  {
    var lastError: Option<FetchError> := None;
    var i := 0;
    while i < |outcomes|
      invariant 0 <= i <= |outcomes|
      invariant forall j :: 0 <= j < i ==> !Succeeds(outcomes[j])
      invariant lastError == if i == 0 then None else AttemptError(outcomes[i - 1])
    {
      var o := outcomes[i];
      if Succeeds(o) {
        assert FirstSuccess(outcomes) == Some(i) by {
          FirstSuccessAt(outcomes, i);
        }
        return Ok(o), i + 1;
      }
      lastError := AttemptError(o);
      i := i + 1;
    }
    r := Err(lastError.GetOr(NoProxyWorked));
    tried := |outcomes|;
  }

  /** The first success is the success with no success before it. */
  lemma {:induction false} FirstSuccessAt(outcomes: seq<ProxyOutcome>, i: nat)
    requires i < |outcomes| && Succeeds(outcomes[i])
    requires forall j :: 0 <= j < i ==> !Succeeds(outcomes[j])
    ensures FirstSuccess(outcomes) == Some(i)
  {
    if i > 0 {
      FirstSuccessAt(outcomes[1..], i - 1);
    }
  }

  // ---------------------------------------------------------------------
  // One URL, and the partition of all results
  // ---------------------------------------------------------------------

  /**
    The file imported from one URL: named after the URL, typed after the
    response body; any fetch error is the URL's failure.
   */
  function ImportOne(url: string, outcomes: seq<ProxyOutcome>): (r: Result<File, FetchError>)
    ensures r.Ok? <==> FirstSuccess(outcomes).Some?
    ensures r.Ok? ==> r.value.name == FileNameFromUrl(url)
                      && r.value.mimeType == MimeOrDefault(outcomes[FirstSuccess(outcomes).value].blobType)
  {
    match FetchResult(outcomes)
    case Ok(response) => Ok(File(FileNameFromUrl(url), MimeOrDefault(response.blobType)))
    case Err(e) => Err(e)
  }

  /**
    The `forEach` over the settled results: fulfilled files and the URLs of
    rejected results, each in input order.
   */
  function Partition(urls: seq<string>, results: seq<Result<File, FetchError>>): (r: (seq<File>, seq<string>))
    requires |results| == |urls|
    ensures |r.0| + |r.1| == |urls|
    ensures |r.1| == 0 <==> forall i :: 0 <= i < |results| ==> results[i].Ok?
    ensures forall i :: 0 <= i < |urls| && results[i].Err? ==> urls[i] in r.1
    ensures forall i :: 0 <= i < |urls| && results[i].Ok? ==> results[i].value in r.0
    ensures forall u :: u in r.1 ==> exists i :: 0 <= i < |urls| && urls[i] == u && results[i].Err?
  {
    SettledSplitFacts(urls, results);
    SettledSplit(urls, results)
  }

  /** The loop of the `forEach`, one result at a time. */
  function SettledSplit(urls: seq<string>, results: seq<Result<File, FetchError>>): (seq<File>, seq<string>)
    requires |results| == |urls|
  {
    if |urls| == 0 then ([], [])
    else
      var rest := SettledSplit(urls[1..], results[1..]);
      match results[0]
      case Ok(f) => ([f] + rest.0, rest.1)
      case Err(_) => (rest.0, [urls[0]] + rest.1)
  }

  /** What `Partition` promises, proved over the loop by induction. */
  lemma {:induction false} SettledSplitFacts(urls: seq<string>, results: seq<Result<File, FetchError>>)
    requires |results| == |urls|
    ensures var r := SettledSplit(urls, results);
            && |r.0| + |r.1| == |urls|
            && (|r.1| == 0 <==> forall i :: 0 <= i < |results| ==> results[i].Ok?)
            && (forall i :: 0 <= i < |urls| && results[i].Err? ==> urls[i] in r.1)
            && (forall i :: 0 <= i < |urls| && results[i].Ok? ==> results[i].value in r.0)
            && (forall u :: u in r.1 ==> exists i :: 0 <= i < |urls| && urls[i] == u && results[i].Err?)
  {
    if |urls| > 0 {
      SettledSplitFacts(urls[1..], results[1..]);
      assert forall i :: 1 <= i < |urls| ==> urls[i] == urls[1..][i - 1] && results[i] == results[1..][i - 1];
    }
  }

  /** The partition of a concatenation is the concatenation of the partitions: order is kept. */
  lemma PartitionConcat(u1: seq<string>, r1: seq<Result<File, FetchError>>,
                        u2: seq<string>, r2: seq<Result<File, FetchError>>)
    requires |r1| == |u1| && |r2| == |u2|
    ensures Partition(u1 + u2, r1 + r2).0 == Partition(u1, r1).0 + Partition(u2, r2).0
    ensures Partition(u1 + u2, r1 + r2).1 == Partition(u1, r1).1 + Partition(u2, r2).1
  {
    SettledSplitConcat(u1, r1, u2, r2);
  }

  lemma {:induction false} SettledSplitConcat(u1: seq<string>, r1: seq<Result<File, FetchError>>,
                                              u2: seq<string>, r2: seq<Result<File, FetchError>>)
    requires |r1| == |u1| && |r2| == |u2|
    ensures SettledSplit(u1 + u2, r1 + r2).0 == SettledSplit(u1, r1).0 + SettledSplit(u2, r2).0
    ensures SettledSplit(u1 + u2, r1 + r2).1 == SettledSplit(u1, r1).1 + SettledSplit(u2, r2).1
  {
    var u, r := u1 + u2, r1 + r2;
    if |u1| > 0 {
      assert u[0] == u1[0] && r[0] == r1[0];
      assert u[1..] == u1[1..] + u2;
      assert r[1..] == r1[1..] + r2;
      SettledSplitConcat(u1[1..], r1[1..], u2, r2);
      var q1 := SettledSplit(u1[1..], r1[1..]);
      var p2 := SettledSplit(u2, r2);
      match r1[0]
      case Ok(f) =>
        assert [f] + (q1.0 + p2.0) == ([f] + q1.0) + p2.0;
      case Err(_) =>
        assert [u1[0]] + (q1.1 + p2.1) == ([u1[0]] + q1.1) + p2.1;
    } else {
      assert u == u2 && r == r2;
    }
  }

  // ---------------------------------------------------------------------
  // handleUrlImport
  // ---------------------------------------------------------------------

  /** The state of the URL dialog. */
  datatype DialogState = DialogState(urls: string, error: string, isImporting: bool, isModalOpen: bool)

  /**
    The message shown when some URLs failed: it opens with the number of
    imported URLs when there are some, otherwise with the number that failed.
   */
  function FailureMessage(successCount: nat, failedCount: nat): (r: string)
    ensures r != ""
    ensures successCount > 0 ==> StartsWith(r, NatToDecimal(successCount) + "个URL导入成功，" + NatToDecimal(failedCount))
    ensures successCount == 0 ==> StartsWith(r, NatToDecimal(failedCount) + "个失败。")
  {
    var head := if successCount > 0 then NatToDecimal(successCount) + "个URL导入成功，" else "";
    var count := head + NatToDecimal(failedCount);
    var tail := "\n这可能是因为服务器防抓取或链接已失效。\n\n失败的链接已保留在下方，请检查后重试。";
    var r := count + "个失败。" + tail;
    ConcatAssoc(count, "个失败。", tail);
    StartsWithAppended(count, "个失败。" + tail);
    StartsWithAppended(count + "个失败。", tail);
    assert successCount == 0 ==> count == NatToDecimal(failedCount);
    r
  }

  /** The per-URL results, `fetches[i]` being what the proxies answer for the i-th URL. */
  function Results(urlList: seq<string>, fetches: seq<seq<ProxyOutcome>>): (r: seq<Result<File, FetchError>>)
    requires |fetches| == |urlList|
    ensures |r| == |urlList|
    ensures forall i :: 0 <= i < |r| ==> r[i] == ImportOne(urlList[i], fetches[i])
  {
    seq(|urlList|, i requires 0 <= i < |urlList| => ImportOne(urlList[i], fetches[i]))
  }

  /**
    `handleUrlImport` from start to the settled end: the new dialog state and
    the files handed to the gallery (`None` when `onAddImages` is not
    called). An empty textarea does nothing; a textarea with no URL only
    resets the error and the importing flag.
   */
  function HandleUrlImport(st: DialogState, fetches: seq<seq<ProxyOutcome>>): (r: (DialogState, Option<seq<File>>))
    requires st.urls != "" ==> |fetches| == |ParseUrlList(st.urls)|
    ensures st.urls == "" ==> r == (st, None)
    ensures st.urls != "" && ParseUrlList(st.urls) == [] ==>
              r == (st.(error := "", isImporting := false), None)
    ensures st.urls != "" ==> !r.0.isImporting
    ensures st.urls != "" && ParseUrlList(st.urls) != [] ==>
              var list := ParseUrlList(st.urls);
              var parts := Partition(list, Results(list, fetches));
              && (r.1.Some? <==> |parts.0| > 0)
              && (r.1.Some? ==> r.1.value == parts.0)
              && ParseUrlList(r.0.urls) == parts.1
              && (|parts.1| == 0 ==> r.0 == DialogState("", "", false, false))
              && (|parts.1| > 0 ==> r.0.isModalOpen == st.isModalOpen && r.0.error != "")
              && (|parts.1| > 0 ==> r.0.urls == Join(parts.1, '\n') && r.0.error == FailureMessage(|parts.0|, |parts.1|))
  {
    if st.urls == "" then (st, None)
    else
      var list := ParseUrlList(st.urls);
      if list == [] then (st.(error := "", isImporting := false), None)
      else
        var parts := Partition(list, Results(list, fetches));
        var files := parts.0;
        var failed := parts.1;
        var added := if |files| > 0 then Some(files) else None;
        if |failed| > 0 then
          var text := Join(failed, '\n');
          RetryTextLists(list, failed);
          (st.(error := FailureMessage(|files|, |failed|), isImporting := false, urls := text), added)
        else
          ParseUrlListEmpty();
          (DialogState("", "", false, false), added)
  }

  /** An empty textarea holds no URL. */
  lemma ParseUrlListEmpty()
    ensures ParseUrlList("") == []
  {
    assert Split("", '\n') == [""];
    assert Trim("") == "";
    assert FlatMap(TrimmedLine, [""]) == TrimmedLine("") + FlatMap(TrimmedLine, [""][1..]);
  }

  /** The failed URLs written back to the textarea parse to exactly those URLs. */
  lemma RetryTextLists(list: seq<string>, failed: seq<string>)
    requires forall i :: 0 <= i < |list| ==> IsEntry(list[i])
    requires forall u :: u in failed ==> u in list
    ensures ParseUrlList(Join(failed, '\n')) == failed
  {
    forall i | 0 <= i < |failed|
      ensures IsEntry(failed[i])
    {
      assert failed[i] in list;
    }
    RetryRoundTrip(failed);
  }
}
