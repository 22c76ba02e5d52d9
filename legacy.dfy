/** The earlier, single-image version of the service: upload writes an `in_progress`
    job, the background step stores the engine's rows and completes the job in one
    transaction, and the result query knows only SUCCESS and PENDING. */
module Legacy {
  import opened Basics
  import opened Tesseract
  import Store
  import Queries

  /** A row of the earlier `jobs` table. */
  datatype LegacyJob = LegacyJob(
    fileName: string, startDatetime: string, endDatetime: Option<string>,
    status: string, width: Option<int>, height: Option<int>)

  /** The decoder (`cv2.imdecode`, which yields nothing for undecodable bytes and raises
      on some inputs, such as an empty buffer) and the engine, called with its default
      configuration. */
  datatype LegacyEngine = LegacyEngine(
    imdecode: Bytes -> Result<Option<Picture>>,
    imageToData: Picture -> Result<TessData>)

  /** The message Python gives when the size of an undecoded image is read. */
  const NoImage := "'NoneType' object has no attribute 'shape'"

  /** The row `upload_image` inserts. */
  function UploadedJob(fileName: string, startDatetime: string): LegacyJob
  {
    LegacyJob(fileName, startDatetime, None, "in_progress", None, None)
  }

  /** The rows `process_image` inserts: every engine entry as it is, `page_num` included,
      under the job's id. */
  function InsertedRows(data: TessData, taskId: string): (rows: seq<Store.TokenRow>)
    ensures |rows| == Size(data)
  {
    seq(Size(data), i requires 0 <= i < Size(data) => Store.TokenRow(taskId, EntryAt(data, i)))
  }

  /** The job table after the completion update; it matches no row for an unknown id. */
  function CompletedJobs(jobs: map<string, LegacyJob>, taskId: string, now: string, pic: Picture)
    : (r: map<string, LegacyJob>)
    ensures r.Keys == jobs.Keys
    ensures forall u :: u in jobs && u != taskId ==> r[u] == jobs[u]
    ensures taskId in jobs ==>
      && r[taskId].status == "completed" && r[taskId].endDatetime == Some(now)
      && r[taskId].width == Some(pic.width) && r[taskId].height == Some(pic.height)
      && r[taskId].fileName == jobs[taskId].fileName
      && r[taskId].startDatetime == jobs[taskId].startDatetime
  {
    if taskId in jobs
    then jobs[taskId := jobs[taskId].(endDatetime := Some(now), status := "completed",
                                      width := Some(pic.width), height := Some(pic.height))]
    else jobs
  }

  /** The earlier version stores the engine's own `page_num` column and every other
      column unchanged; the new version keeps all other columns but takes the page
      number from the page. */
  lemma PageNumberSources(data: TessData, taskId: string, pageNum: int)
    ensures var legacy, current := InsertedRows(data, taskId), Store.PageRows(Store.PageData(data, pageNum), taskId);
      |legacy| == |current| == Size(data) &&
      forall k :: 0 <= k < Size(data) ==>
        legacy[k].uuid == taskId && current[k].uuid == taskId &&
        legacy[k].entry.pageNum == data.pageNum[k] && current[k].entry.pageNum == pageNum &&
        current[k].entry == legacy[k].entry.(pageNum := pageNum)
  {
  }

  class LegacyDatabase {
    var jobs: map<string, LegacyJob>
    var results: seq<Store.TokenRow>
    var durableJobs: map<string, LegacyJob>
    var durableResults: seq<Store.TokenRow>

    /** Between operations no write is left uncommitted. */
    ghost predicate Valid()
      reads this
    {
      jobs == durableJobs && results == durableResults
    }

    constructor ()
      ensures Valid() && jobs == map[] && results == []
    {
      jobs, results := map[], [];
      durableJobs, durableResults := map[], [];
    }

    method Commit()
      modifies this
      ensures Valid() && jobs == old(jobs) && results == old(results)
    {
      durableJobs, durableResults := jobs, results;
    }

    /** `upload_image`: inserts the `in_progress` job and returns its id; processing is
        scheduled and runs later, as a separate call. A taken id raises. */
    method UploadImage(fileName: string, taskId: string, startDatetime: string) returns (r: Result<string>)
      requires Valid()
      modifies this
      ensures Valid() && results == old(results)
      ensures taskId in old(jobs) ==> r == Err(Store.UniqueViolation) && jobs == old(jobs)
      ensures taskId !in old(jobs) ==>
        r == Ok(taskId) && jobs == old(jobs)[taskId := UploadedJob(fileName, startDatetime)]
    {
      if taskId in jobs {
        r := Err(Store.UniqueViolation);
        return;
      }
      jobs := jobs[taskId := UploadedJob(fileName, startDatetime)];
      Commit();
      r := Ok(taskId);
    }

    /** `process_image`: decodes and recognises the image, then inserts one row per engine
        entry and completes the job, committing both together at the end. If the decoder
        raises, yields no image, or recognition raises, nothing is written and the job
        stays `in_progress`. */
    method ProcessImage(contents: Bytes, taskId: string, eng: LegacyEngine, now: string) returns (r: Result<()>)
      requires Valid()
      modifies this
      ensures Valid()
      ensures eng.imdecode(contents).Err? ==>
        r == Err(eng.imdecode(contents).message) && jobs == old(jobs) && results == old(results)
      ensures eng.imdecode(contents) == Ok(None) ==>
        r == Err(NoImage) && jobs == old(jobs) && results == old(results)
      ensures eng.imdecode(contents).Ok? && eng.imdecode(contents).value.Some? ==>
        var pic := eng.imdecode(contents).value.value;
        match eng.imageToData(pic)
        case Err(m) => r == Err(m) && jobs == old(jobs) && results == old(results)
        case Ok(data) =>
          && r == Ok(())
          && results == old(results) + InsertedRows(data, taskId)
          && jobs == CompletedJobs(old(jobs), taskId, now, pic)
    {
      var decoded := eng.imdecode(contents);
      if decoded.Err? {
        r := Err(decoded.message);
        return;
      }
      if decoded.value.None? {
        r := Err(NoImage);
        return;
      }
      var pic := decoded.value.value;
      var out := eng.imageToData(pic);
      if out.Err? {
        r := Err(out.message);
        return;
      }
      var data := out.value;
      var i := 0;
      while i < Size(data)
        invariant 0 <= i <= Size(data)
        invariant results == old(results) + InsertedRows(data, taskId)[..i]
        invariant jobs == old(jobs)
        invariant durableJobs == old(durableJobs) && durableResults == old(durableResults)
      {
        results := results + [Store.TokenRow(taskId, EntryAt(data, i))];
        assert InsertedRows(data, taskId)[..i + 1] == InsertedRows(data, taskId)[..i] + [InsertedRows(data, taskId)[i]];
        i := i + 1;
      }
      assert InsertedRows(data, taskId)[..i] == InsertedRows(data, taskId);
      jobs := CompletedJobs(jobs, taskId, now, pic);
      assert durableJobs == old(jobs) && durableResults == old(results);  // nothing visible yet
      Commit();
      r := Ok(());
    }
  }

  /** The `state` of the earlier query: SUCCESS for `completed`, PENDING for everything
      else, `in_progress` included. */
  function LegacyStateOf(status: string): (s: Queries.State)
    ensures s == Queries.SUCCESS <==> status == "completed"
    ensures s == Queries.PENDING <==> status != "completed"
  {
    if status == "completed" then Queries.SUCCESS else Queries.PENDING
  }

  /** The body of the earlier `get_result` reply; `results` is present for SUCCESS only. */
  datatype LegacyView = LegacyView(
    state: Queries.State, status: string, fileName: string, startDatetime: string,
    endDatetime: Option<string>, width: Option<int>, height: Option<int>,
    results: Option<seq<Entry>>)

  datatype LegacyReply = NotFound | Found(view: LegacyView)

  /** The earlier `get_result`: 404 for an unknown id; otherwise the row's fields, and for
      a completed job all twelve token columns under their own names. */
  method GetResult(jobs: map<string, LegacyJob>, tokens: seq<Store.TokenRow>, taskId: string)
    returns (r: LegacyReply)
    ensures r == NotFound <==> taskId !in jobs
    ensures taskId in jobs ==>
      && r.Found?
      && var job, v := jobs[taskId], r.view;
      && v.state == LegacyStateOf(job.status)
      && v.status == job.status && v.fileName == job.fileName
      && v.startDatetime == job.startDatetime && v.endDatetime == job.endDatetime
      && v.width == job.width && v.height == job.height
      && (v.results.Some? <==> job.status == "completed")
      && (v.results.Some? ==>
            var rows := Queries.TokensOf(tokens, taskId);
            |v.results.value| == |rows| &&
            forall k :: 0 <= k < |rows| ==> v.results.value[k] == rows[k].entry)
  {
    if taskId !in jobs {
      return NotFound;
    }
    var job := jobs[taskId];
    var ocrRows := Queries.TokensOf(tokens, taskId);
    var shown := LegacyView(Queries.PENDING, job.status, job.fileName, job.startDatetime,
                            job.endDatetime, job.width, job.height, None);
    if job.status == "completed" {
      var results: seq<Entry> := [];
      var i := 0;
      while i < |ocrRows|
        invariant 0 <= i <= |ocrRows|
        invariant |results| == i
        invariant forall k :: 0 <= k < i ==> results[k] == ocrRows[k].entry
      {
        results := results + [ocrRows[i].entry];
        i := i + 1;
      }
      r := Found(shown.(state := Queries.SUCCESS, results := Some(results)));
    } else {
      r := Found(shown);
    }
  }

  /** Upload followed by successful processing under a fresh id: the job moves from
      PENDING with status `in_progress` to SUCCESS, and the query returns exactly the
      engine's entries, in order. */
  lemma UploadThenProcess(jobs: map<string, LegacyJob>, tokens: seq<Store.TokenRow>, taskId: string,
                          fileName: string, start: string, now: string, pic: Picture, data: TessData)
    requires taskId !in jobs
    requires forall t :: t in tokens ==> t.uuid != taskId
    ensures var uploaded := jobs[taskId := UploadedJob(fileName, start)];
      && LegacyStateOf(uploaded[taskId].status) == Queries.PENDING
      && Queries.TokensOf(tokens, taskId) == []
      && var done := CompletedJobs(uploaded, taskId, now, pic);
         && LegacyStateOf(done[taskId].status) == Queries.SUCCESS
         && done[taskId].width == Some(pic.width) && done[taskId].height == Some(pic.height)
         && (forall u :: u in jobs ==> done[u] == jobs[u])
         && var rows := Queries.TokensOf(tokens + InsertedRows(data, taskId), taskId);
            |rows| == Size(data) && forall k :: 0 <= k < |rows| ==> rows[k].entry == Entries(data)[k]
  {
    Queries.NoneMine(tokens, taskId);
    Queries.OwnTokens(tokens, InsertedRows(data, taskId), taskId);
    assert "in_progress"[0] != "completed"[0];
  }
}
