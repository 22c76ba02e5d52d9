/** The job lifecycle of the new service: the background task `process_file`, the
    asynchronous submission `start_ocr_processing` that schedules it, and the
    synchronous `perform_ocr`, which runs the same steps inside the request. */
module Lifecycle {
  import opened Basics
  import opened Tesseract
  import opened Store
  import opened Requests

  /** Decoding: a PDF is rasterised (at the requested resolution when one is given,
      else at the rasteriser's default); anything else is opened as a single image. */
  function Decode(eng: Engine, contents: Bytes, dpi: Option<int>): Result<seq<Picture>>
  {
    if IsPdf(contents) then eng.rasterizePdf(contents, if DpiGiven(dpi) then dpi else None)
    else match eng.openImage(contents)
      case Ok(pic) => Ok([pic])
      case Err(m) => Err(m)
  }

  /** Recognition of `pics[i..]`, numbering pages from `i + 1`; the first exception wins. */
  function RecogniseFrom(eng: Engine, pics: seq<Picture>, cfg: string, i: nat): Result<seq<PageData>>
    requires i <= |pics|
    decreases |pics| - i
  {
    if i == |pics| then Ok([])
    else match eng.imageToData(pics[i], cfg)
      case Err(m) => Err(m)
      case Ok(d) => Prepend([PageData(d, i + 1)], RecogniseFrom(eng, pics, cfg, i + 1))
  }

  function Prepend(done: seq<PageData>, r: Result<seq<PageData>>): Result<seq<PageData>>
  {
    match r
    case Ok(rest) => Ok(done + rest)
    case Err(m) => Err(m)
  }

  lemma PrependTwice(a: seq<PageData>, b: seq<PageData>, r: Result<seq<PageData>>)
    ensures Prepend(a, Prepend(b, r)) == Prepend(a + b, r)
  {
    if r.Ok? {
      assert a + (b + r.value) == (a + b) + r.value;
    }
  }

  /** Recognition succeeds exactly when the engine succeeds on every page; the pages then
      come back in order, numbered from 1, each with the engine's own output. On failure
      the message is that of the first page the engine failed on. */
  lemma {:induction false} RecogniseFromSpec(eng: Engine, pics: seq<Picture>, cfg: string, i: nat)
    requires i <= |pics|
    ensures RecogniseFrom(eng, pics, cfg, i).Ok? <==>
      forall j :: i <= j < |pics| ==> eng.imageToData(pics[j], cfg).Ok?
    ensures RecogniseFrom(eng, pics, cfg, i).Ok? ==>
      var pages := RecogniseFrom(eng, pics, cfg, i).value;
      |pages| == |pics| - i &&
      forall k :: 0 <= k < |pages| ==>
        pages[k].pageNum == i + k + 1 && Ok(pages[k].data) == eng.imageToData(pics[i + k], cfg)
    ensures RecogniseFrom(eng, pics, cfg, i).Err? ==>
      exists j :: i <= j < |pics| && eng.imageToData(pics[j], cfg) == Err(RecogniseFrom(eng, pics, cfg, i).message) &&
        forall j' :: i <= j' < j ==> eng.imageToData(pics[j'], cfg).Ok?
    decreases |pics| - i
  {
    if i < |pics| {
      RecogniseFromSpec(eng, pics, cfg, i + 1);
      var out := eng.imageToData(pics[i], cfg);
      if out.Ok? {
        var rest := RecogniseFrom(eng, pics, cfg, i + 1);
        if rest.Err? {
          var j :| i + 1 <= j < |pics| && eng.imageToData(pics[j], cfg) == Err(rest.message) &&
            forall j' :: i + 1 <= j' < j ==> eng.imageToData(pics[j'], cfg).Ok?;
          assert forall j' :: i <= j' < j ==> eng.imageToData(pics[j'], cfg).Ok?;
        }
      }
    }
  }

  /** The page-size list kept for a completed job: page `k + 1` has the size of the
      `k`-th decoded picture. */
  function PageDimsOf(pics: seq<Picture>): (dims: seq<PageDims>)
    ensures |dims| == |pics|
  {
    seq(|pics|, k requires 0 <= k < |pics| => PageDims(k + 1, pics[k].width, pics[k].height))
  }

  /** What a successful run has in hand: the decoded pictures and their recognised pages. */
  datatype Run = Run(pics: seq<Picture>, pages: seq<PageData>)

  /** Decoding followed by recognition of every page; the first exception wins. */
  function Pipeline(eng: Engine, contents: Bytes, p: OcrParams): Result<Run>
  {
    match Decode(eng, contents, p.dpi)
    case Err(m) => Err(m)
    case Ok(pics) =>
      match RecogniseFrom(eng, pics, BuildConfig(p), 0)
      case Err(m) => Err(m)
      case Ok(pages) => Ok(Run(pics, pages))
  }

  function DpiValue(dpi: Option<int>): Value
  {
    if dpi.Some? then Int(dpi.value) else Null
  }

  /** The update written when the task starts. */
  function ProcessingPatch(contents: Bytes, p: OcrParams): Row
  {
    map[Status := Processing, PsmType := Int(p.psm), Dpi := DpiValue(p.dpi),
        FileType := Text(FileTypeOf(contents))]
  }

  /** The update written on success. */
  function CompletedPatch(endTime: string, numPages: nat, dims: seq<PageDims>): Row
  {
    map[EndDatetime := Text(endTime), Status := Completed, NumPages := Int(numPages),
        PageInfo := Pages(dims)]
  }

  /** The update written when decoding or recognition raised. */
  function FailedPatch(endTime: string, message: string): Row
  {
    map[EndDatetime := Text(endTime), Status := Failed, ErrorMessage := Text(message)]
  }

  /** The job table after a run: first the processing update, then exactly one terminal
      update. `prefix` is the text put before the exception's message. */
  function AfterRun(jobs: JobTable, taskId: string, contents: Bytes, p: OcrParams, eng: Engine,
                    endTime: string, prefix: string): JobTable
  {
    var started := Patched(jobs, taskId, ProcessingPatch(contents, p));
    match Pipeline(eng, contents, p)
    case Ok(run) => Patched(started, taskId, CompletedPatch(endTime, |run.pics|, PageDimsOf(run.pics)))
    case Err(m) => Patched(started, taskId, FailedPatch(endTime, prefix + m))
  }

  /** The token rows a run adds: all of them on success, none on failure. */
  function RunTokens(taskId: string, contents: Bytes, p: OcrParams, eng: Engine): seq<TokenRow>
  {
    match Pipeline(eng, contents, p)
    case Ok(run) => TokenRows(run.pages, taskId)
    case Err(_) => []
  }

  /** The page loop: recognises the pictures in order, numbering them from 1, and
      collects each page's size; it stops at the first exception. */
  method RecognisePages(eng: Engine, pics: seq<Picture>, cfg: string)
    returns (r: Result<seq<PageData>>, pageInfo: seq<PageDims>)
    ensures r == RecogniseFrom(eng, pics, cfg, 0)
    ensures r.Ok? ==> pageInfo == PageDimsOf(pics)
  {
    var ocrData: seq<PageData> := [];
    pageInfo := [];
    var i := 0;
    assert RecogniseFrom(eng, pics, cfg, 0).Ok? ==>
      [] + RecogniseFrom(eng, pics, cfg, 0).value == RecogniseFrom(eng, pics, cfg, 0).value;
    while i < |pics|
      invariant 0 <= i <= |pics|
      invariant RecogniseFrom(eng, pics, cfg, 0) == Prepend(ocrData, RecogniseFrom(eng, pics, cfg, i))
      invariant pageInfo == PageDimsOf(pics[..i])
    {
      var out := eng.imageToData(pics[i], cfg);
      if out.Err? {
        r := Err(out.message);
        return;
      }
      assert RecogniseFrom(eng, pics, cfg, i) ==
        Prepend([PageData(out.value, i + 1)], RecogniseFrom(eng, pics, cfg, i + 1));
      PrependTwice(ocrData, [PageData(out.value, i + 1)], RecogniseFrom(eng, pics, cfg, i + 1));
      ocrData := ocrData + [PageData(out.value, i + 1)];
      pageInfo := pageInfo + [PageDims(i + 1, pics[i].width, pics[i].height)];
      i := i + 1;
    }
    assert pics[..i] == pics;
    assert ocrData + [] == ocrData;
    r := Ok(ocrData);
  }

  /** The decode-recognise-save steps shared by `process_file` and `perform_ocr`, with
      the failure message's prefix as the one difference. */
  method Execute(db: Database, contents: Bytes, taskId: string, p: OcrParams, eng: Engine,
                 endTime: string, prefix: string) returns (r: Result<Run>)
    requires db.Valid()
    modifies db
    ensures db.Valid()
    ensures r == Pipeline(eng, contents, p)
    ensures db.jobs == AfterRun(old(db.jobs), taskId, contents, p, eng, endTime, prefix)
    ensures db.results == old(db.results) + RunTokens(taskId, contents, p, eng)
  {
    var done := db.UpdateJob(taskId, ProcessingPatch(contents, p));
    var decoded := Decode(eng, contents, p.dpi);
    if decoded.Err? {
      done := db.UpdateJob(taskId, FailedPatch(endTime, prefix + decoded.message));
      r := Err(decoded.message);
      return;
    }
    var pics := decoded.value;
    var pages, pageInfo := RecognisePages(eng, pics, BuildConfig(p));
    if pages.Err? {
      done := db.UpdateJob(taskId, FailedPatch(endTime, prefix + pages.message));
      r := Err(pages.message);
      return;
    }
    db.SaveOcrResults(pages.value, taskId);
    done := db.UpdateJob(taskId, CompletedPatch(endTime, |pics|, pageInfo));
    r := Ok(Run(pics, pages.value));
  }

  /** What `process_file` returns: the page sizes, the sniffed file type and the
      requested resolution. */
  datatype ResultInfo = ResultInfo(pages: seq<PageDims>, fileType: string, usedDpi: Option<int>)

  /** `process_file`, the background task of an asynchronous submission. On failure the
      exception is raised again with its own message. */
  method ProcessFile(db: Database, contents: Bytes, taskId: string, p: OcrParams, eng: Engine,
                     endTime: string) returns (r: Result<ResultInfo>)
    requires db.Valid()
    modifies db
    ensures db.Valid()
    ensures db.jobs == AfterRun(old(db.jobs), taskId, contents, p, eng, endTime, "Failed to process image: ")
    ensures db.results == old(db.results) + RunTokens(taskId, contents, p, eng)
    ensures match Pipeline(eng, contents, p)
            case Ok(run) => r == Ok(ResultInfo(PageDimsOf(run.pics), FileTypeOf(contents), p.dpi))
            case Err(m) => r == Err(m)
  {
    var run := Execute(db, contents, taskId, p, eng, endTime, "Failed to process image: ");
    if run.Err? {
      r := Err(run.message);
    } else {
      r := Ok(ResultInfo(PageDimsOf(run.value.pics), FileTypeOf(contents), p.dpi));
    }
  }

  /** The lifecycle invariant of a job row: an end time exactly in a terminal status, an
      error message exactly in `failed`. */
  ghost predicate Consistent(row: Row)
  {
    && (Cell(row, EndDatetime) != Null <==> StatusOf(row) == Completed || StatusOf(row) == Failed)
    && (Cell(row, ErrorMessage) != Null <==> StatusOf(row) == Failed)
  }

  /** The statuses the service itself writes into a job row. */
  predicate KnownStatus(v: Value)
  {
    v == Pending || v == Processing || v == Completed || v == Failed
  }

  lemma NewJobConsistent(fileName: string, startDatetime: string)
    ensures Consistent(NewJob(fileName, startDatetime))
    ensures KnownStatus(StatusOf(NewJob(fileName, startDatetime)))
  {
  }

  /** The terminal update a run writes. */
  function TerminalPatch(contents: Bytes, p: OcrParams, eng: Engine, endTime: string, prefix: string): Row
  {
    match Pipeline(eng, contents, p)
    case Ok(run) => CompletedPatch(endTime, |run.pics|, PageDimsOf(run.pics))
    case Err(m) => FailedPatch(endTime, prefix + m)
  }

  /** A run replaces its own row by the row with both updates applied, and nothing else. */
  lemma AfterRunTouchesOneRow(jobs: JobTable, taskId: string, contents: Bytes, p: OcrParams, eng: Engine,
                              endTime: string, prefix: string)
    ensures AfterRun(jobs, taskId, contents, p, eng, endTime, prefix) ==
      if taskId in jobs
      then jobs[taskId := jobs[taskId] + ProcessingPatch(contents, p) + TerminalPatch(contents, p, eng, endTime, prefix)]
      else jobs
  {
  }

  /** The row a run leaves: it keeps the name and start time, records the parameters and
      file type written when processing began, always gets the end time, and ends in
      exactly one terminal status: `completed` with the page count and sizes, or `failed`
      with the prefixed message. */
  lemma AfterRunRow(before: Row, contents: Bytes, p: OcrParams, eng: Engine, endTime: string, prefix: string)
    ensures var row := before + ProcessingPatch(contents, p) + TerminalPatch(contents, p, eng, endTime, prefix);
      && Cell(row, FileName) == Cell(before, FileName)
      && Cell(row, StartDatetime) == Cell(before, StartDatetime)
      && Cell(row, PsmType) == Int(p.psm)
      && Cell(row, Dpi) == DpiValue(p.dpi)
      && Cell(row, FileType) == Text(FileTypeOf(contents))
      && Cell(row, EndDatetime) == Text(endTime)
      && match Pipeline(eng, contents, p)
         case Ok(run) =>
           && StatusOf(row) == Completed
           && Cell(row, NumPages) == Int(|run.pics|)
           && Cell(row, PageInfo) == Pages(PageDimsOf(run.pics))
           && Cell(row, ErrorMessage) == Cell(before, ErrorMessage)
         case Err(m) =>
           && StatusOf(row) == Failed
           && Cell(row, ErrorMessage) == Text(prefix + m)
           && Cell(row, NumPages) == Cell(before, NumPages)
           && Cell(row, PageInfo) == Cell(before, PageInfo)
  {
    StartedRow(before, contents, p);
    var started := before + ProcessingPatch(contents, p);
    match Pipeline(eng, contents, p)
    case Ok(run) =>
      CompletedRow(started, endTime, |run.pics|, PageDimsOf(run.pics));
    case Err(m) =>
      FailedRow(started, endTime, prefix + m);
  }

  /** The success update sets its four columns and keeps every other one. */
  lemma CompletedRow(started: Row, endTime: string, numPages: nat, dims: seq<PageDims>)
    ensures var row := started + CompletedPatch(endTime, numPages, dims);
      && (forall c :: c in {FileName, StartDatetime, PsmType, Dpi, FileType, ErrorMessage} ==>
            Cell(row, c) == Cell(started, c))
      && StatusOf(row) == Completed
      && Cell(row, EndDatetime) == Text(endTime)
      && Cell(row, NumPages) == Int(numPages)
      && Cell(row, PageInfo) == Pages(dims)
  {
  }

  /** The failure update sets its three columns and keeps every other one. */
  lemma FailedRow(started: Row, endTime: string, message: string)
    ensures var row := started + FailedPatch(endTime, message);
      && (forall c :: c in {FileName, StartDatetime, PsmType, Dpi, FileType, NumPages, PageInfo} ==>
            Cell(row, c) == Cell(started, c))
      && StatusOf(row) == Failed
      && Cell(row, EndDatetime) == Text(endTime)
      && Cell(row, ErrorMessage) == Text(message)
  {
  }

  /** The processing update sets its four columns and keeps every other one. */
  lemma StartedRow(before: Row, contents: Bytes, p: OcrParams)
    ensures var row := before + ProcessingPatch(contents, p);
      && (forall c :: c in {FileName, StartDatetime, EndDatetime, NumPages, PageInfo, ErrorMessage} ==>
            Cell(row, c) == Cell(before, c))
      && StatusOf(row) == Processing
      && Cell(row, PsmType) == Int(p.psm)
      && (Cell(row, Dpi) == Null <==> p.dpi.None?)
      && (p.dpi.Some? ==> Cell(row, Dpi) == Int(p.dpi.value))
      && Cell(row, FileType) == Text(FileTypeOf(contents))
  {
  }

  /** The resolution only matters for a PDF, and there a zero resolution means the
      rasteriser's own default, as no resolution does. */
  lemma DecodeResolution(eng: Engine, contents: Bytes, d: int)
    ensures !IsPdf(contents) ==> Decode(eng, contents, Some(d)) == Decode(eng, contents, None)
    ensures IsPdf(contents) ==> Decode(eng, contents, None) == eng.rasterizePdf(contents, None)
    ensures IsPdf(contents) ==> Decode(eng, contents, Some(0)) == eng.rasterizePdf(contents, None)
    ensures IsPdf(contents) && d != 0 ==> Decode(eng, contents, Some(d)) == eng.rasterizePdf(contents, Some(d))
  {
  }

  /** Any upload other than a PDF is one page: when the opener and the engine succeed the
      job ends `completed` with one page of the picture's size; when either raises it ends
      `failed` with that exception's message. */
  lemma ImageUploadRow(before: Row, contents: Bytes, p: OcrParams, eng: Engine, endTime: string, prefix: string)
    requires !IsPdf(contents)
    ensures var row := before + ProcessingPatch(contents, p) + TerminalPatch(contents, p, eng, endTime, prefix);
      && Cell(row, FileType) == Text("Image")
      && match eng.openImage(contents)
         case Err(m) => StatusOf(row) == Failed && Cell(row, ErrorMessage) == Text(prefix + m)
         case Ok(pic) =>
           match eng.imageToData(pic, BuildConfig(p))
           case Err(m) => StatusOf(row) == Failed && Cell(row, ErrorMessage) == Text(prefix + m)
           case Ok(_) =>
             && StatusOf(row) == Completed
             && Cell(row, NumPages) == Int(1)
             && Cell(row, PageInfo) == Pages([PageDims(1, pic.width, pic.height)])
  {
    AfterRunRow(before, contents, p, eng, endTime, prefix);
    var cfg := BuildConfig(p);
    if eng.openImage(contents).Ok? {
      var pic := eng.openImage(contents).value;
      assert Decode(eng, contents, p.dpi) == Ok([pic]);
      assert RecogniseFrom(eng, [pic], cfg, 1) == Ok([]);
      if eng.imageToData(pic, cfg).Ok? {
        assert PageDimsOf([pic]) == [PageDims(1, pic.width, pic.height)];
      }
    }
  }

  /** A run started on a consistent, non-terminal row leaves it consistent and terminal;
      every other row is untouched, so a consistent table stays consistent. */
  lemma RunKeepsConsistent(jobs: JobTable, taskId: string, contents: Bytes, p: OcrParams, eng: Engine,
                           endTime: string, prefix: string)
    requires taskId in jobs
    requires forall u :: u in jobs ==> Consistent(jobs[u]) && KnownStatus(StatusOf(jobs[u]))
    requires StatusOf(jobs[taskId]) != Completed && StatusOf(jobs[taskId]) != Failed
    ensures var after := AfterRun(jobs, taskId, contents, p, eng, endTime, prefix);
      && (forall u :: u in after ==> Consistent(after[u]) && KnownStatus(StatusOf(after[u])))
      && (StatusOf(after[taskId]) == Completed || StatusOf(after[taskId]) == Failed)
  {
    AfterRunTouchesOneRow(jobs, taskId, contents, p, eng, endTime, prefix);
    AfterRunRow(jobs[taskId], contents, p, eng, endTime, prefix);
    var after := AfterRun(jobs, taskId, contents, p, eng, endTime, prefix);
    assert Cell(jobs[taskId], ErrorMessage) == Null;
    forall u | u in after ensures Consistent(after[u]) && KnownStatus(StatusOf(after[u])) {
      if u != taskId {
        assert after[u] == jobs[u];
      }
    }
  }

  /** On success there is one token row per engine token of every page, each carrying the
      job's id and a page number between 1 and the number of pages; on failure none. */
  lemma RunTokensShape(taskId: string, contents: Bytes, p: OcrParams, eng: Engine)
    ensures Pipeline(eng, contents, p).Err? ==> RunTokens(taskId, contents, p, eng) == []
    ensures Pipeline(eng, contents, p).Ok? ==>
      var run := Pipeline(eng, contents, p).value;
      && |RunTokens(taskId, contents, p, eng)| == TotalSize(run.pages)
      && forall t :: t in RunTokens(taskId, contents, p, eng) ==>
           t.uuid == taskId && 1 <= t.entry.pageNum <= |run.pics|
  {
    if Pipeline(eng, contents, p).Ok? {
      var run := Pipeline(eng, contents, p).value;
      RecogniseFromSpec(eng, run.pics, BuildConfig(p), 0);
      TokenRowsShape(run.pages, taskId);
      forall n | n in PageNums(run.pages) ensures 1 <= n <= |run.pics| {
        var pg :| pg in run.pages && pg.pageNum == n;
        var k :| 0 <= k < |run.pages| && run.pages[k] == pg;
      }
    }
  }

  /** The reply of an upload endpoint. */
  datatype Reply = Accepted(taskId: string) | BadRequest(error: string) | ServerError(detail: string)

  /** `start_ocr_processing`: validates, then creates the `pending` job and returns its id;
      `process_file` is scheduled and runs later, as a separate call. A rejected request
      creates no row. */
  method StartOcrProcessing(db: Database, fileName: string, p: OcrParams, available: seq<string>,
                            taskId: string, now: string) returns (r: Reply)
    requires db.Valid()
    modifies db
    ensures db.Valid()
    ensures db.results == old(db.results)
    ensures Validate(Async, p, available).Some? ==>
      r == BadRequest(RejectionMessage(Async, Validate(Async, p, available).value)) && db.jobs == old(db.jobs)
    ensures Validate(Async, p, available).None? && taskId in old(db.jobs) ==>
      r.ServerError? && db.jobs == old(db.jobs)
    ensures Validate(Async, p, available).None? && taskId !in old(db.jobs) ==>
      r == Accepted(taskId) && db.jobs == old(db.jobs)[taskId := NewJob(fileName, now)]
  {
    var rejection := Validate(Async, p, available);
    if rejection.Some? {
      r := BadRequest(RejectionMessage(Async, rejection.value));
      return;
    }
    var created := db.CreateJob(taskId, fileName, now);
    if created.Err? {
      r := ServerError(created.message);
      return;
    }
    r := Accepted(taskId);
  }

  /** The tokens `perform_ocr` returns, page after page: the engine's own columns,
      `page_num` included. */
  function EngineEntries(pages: seq<PageData>): seq<Entry>
  {
    if pages == [] then []
    else EngineEntries(pages[..|pages| - 1]) + Entries(pages[|pages| - 1].data)
  }

  /** The flattening loop of `perform_ocr`. */
  method FlattenResults(ocrData: seq<PageData>) returns (results: seq<Entry>)
    ensures results == EngineEntries(ocrData)
  {
    results := [];
    var p := 0;
    while p < |ocrData|
      invariant 0 <= p <= |ocrData|
      invariant results == EngineEntries(ocrData[..p])
    {
      var data := ocrData[p].data;
      var i := 0;
      while i < Size(data)
        invariant 0 <= i <= Size(data)
        invariant results == EngineEntries(ocrData[..p]) + Entries(data)[..i]
      {
        results := results + [EntryAt(data, i)];
        assert Entries(data)[..i + 1] == Entries(data)[..i] + [Entries(data)[i]];
        i := i + 1;
      }
      assert ocrData[..p + 1][..p] == ocrData[..p];
      assert Entries(data)[..i] == Entries(data);
      p := p + 1;
    }
    assert ocrData[..p] == ocrData;
  }

  /** The tokens `perform_ocr` returns and the rows it stores agree one to one, in the
      same order, on every column except `page_num`. */
  lemma {:induction false} EngineEntriesMatchRows(pages: seq<PageData>, taskId: string)
    ensures |EngineEntries(pages)| == |TokenRows(pages, taskId)|
    ensures forall k :: 0 <= k < |EngineEntries(pages)| ==>
      TokenRows(pages, taskId)[k].uuid == taskId &&
      TokenRows(pages, taskId)[k].entry == EngineEntries(pages)[k].(pageNum := TokenRows(pages, taskId)[k].entry.pageNum)
  {
    if pages != [] {
      var init, last := pages[..|pages| - 1], pages[|pages| - 1];
      EngineEntriesMatchRows(init, taskId);
      var es, rs := EngineEntries(pages), TokenRows(pages, taskId);
      var n := |EngineEntries(init)|;
      forall k | 0 <= k < |es|
        ensures rs[k].uuid == taskId && rs[k].entry == es[k].(pageNum := rs[k].entry.pageNum)
      {
        if k < n {
          assert es[k] == EngineEntries(init)[k];
          assert rs[k] == TokenRows(init, taskId)[k];
        } else {
          assert es[k] == Entries(last.data)[k - n];
          assert rs[k] == PageRows(last, taskId)[k - n];
        }
      }
    }
  }

  /** The body of a successful synchronous reply. */
  datatype SyncResult = SyncResult(
    taskId: string, fileName: string, fileType: string, numPages: nat,
    startDatetime: string, endDatetime: string, status: string, dpi: Option<int>,
    pageInfo: seq<PageDims>, psmType: int, results: seq<Entry>)

  datatype SyncReply = Recognised(result: SyncResult) | Rejected(error: string) | Crashed(detail: string)

  /** `perform_ocr`: validates, creates the job, runs the pipeline inside the request and
      returns every token; a run that raised is recorded as `failed` and answered with a
      server error. */
  method PerformOcr(db: Database, fileName: string, contents: Bytes, p: OcrParams,
                    available: seq<string>, eng: Engine, taskId: string,
                    startTime: string, endTime: string) returns (r: SyncReply)
    requires db.Valid()
    modifies db
    ensures db.Valid()
    ensures Validate(Sync, p, available).Some? ==>
      r == Rejected(RejectionMessage(Sync, Validate(Sync, p, available).value)) &&
      db.jobs == old(db.jobs) && db.results == old(db.results)
    ensures Validate(Sync, p, available).None? && taskId in old(db.jobs) ==>
      r.Crashed? && db.jobs == old(db.jobs) && db.results == old(db.results)
    ensures Validate(Sync, p, available).None? && taskId !in old(db.jobs) ==>
      && db.jobs == AfterRun(old(db.jobs)[taskId := NewJob(fileName, startTime)], taskId, contents, p, eng,
                             endTime, "Failed to process file: ")
      && db.results == old(db.results) + RunTokens(taskId, contents, p, eng)
      && match Pipeline(eng, contents, p)
         case Ok(run) =>
           r == Recognised(SyncResult(taskId, fileName, FileTypeOf(contents), |run.pics|, startTime, endTime,
                                      "completed", p.dpi, PageDimsOf(run.pics), p.psm, EngineEntries(run.pages)))
         case Err(m) => r == Crashed("Failed to process file: " + m)
  {
    var rejection := Validate(Sync, p, available);
    if rejection.Some? {
      r := Rejected(RejectionMessage(Sync, rejection.value));
      return;
    }
    var created := db.CreateJob(taskId, fileName, startTime);
    if created.Err? {
      r := Crashed(created.message);
      return;
    }
    var run := Execute(db, contents, taskId, p, eng, endTime, "Failed to process file: ");
    if run.Err? {
      r := Crashed("Failed to process file: " + run.message);
      return;
    }
    var results := FlattenResults(run.value.pages);
    r := Recognised(SyncResult(taskId, fileName, FileTypeOf(contents), |run.value.pics|, startTime, endTime,
                               "completed", p.dpi, PageDimsOf(run.value.pics), p.psm, results));
  }
}
