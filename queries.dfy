/** The read side of the new service: `get_result` (one job, with its tokens once it has
    completed) and `get_jobs` (bucket counts and a filtered job list). Both open their
    own connection, so they see the committed tables, which are passed in as values. */
module Queries {
  import opened Basics
  import opened Tesseract
  import opened Store
  import Requests
  import Lifecycle

  datatype State = PENDING | RUNNING | SUCCESS | FAILED

  /** The `state` shown for a stored status. */
  function StateOf(status: Value): (s: State)
    ensures s == SUCCESS <==> status == Completed
    ensures s == FAILED <==> status == Failed
    ensures s == RUNNING <==> status == Text("running")
    ensures s == PENDING <==> status != Completed && status != Failed && status != Text("running")
  {
    if status == Completed then SUCCESS
    else if status == Failed then FAILED
    else if status == Text("running") then RUNNING
    else PENDING
  }

  /** No status the service writes is `running`: a job the service manages is never
      shown as RUNNING, and one being processed is shown as PENDING. */
  lemma NeverRunning(jobs: JobTable, taskId: string)
    requires forall u :: u in jobs ==> Lifecycle.KnownStatus(StatusOf(jobs[u]))
    requires taskId in jobs
    ensures StateOf(StatusOf(jobs[taskId])) != RUNNING
    ensures StatusOf(jobs[taskId]) == Processing ==> StateOf(StatusOf(jobs[taskId])) == PENDING
  {
  }

  /** One entry of the SUCCESS `results` list under the keys the endpoint gives it. The
      endpoint reads the first ten of the twelve selected columns, so the values under
      `conf` and `text` are the token's width and height. */
  datatype ResultRow = ResultRow(
    level: int, pageNum: int, blockNum: int, parNum: int, lineNum: int, wordNum: int,
    left: int, top: int, conf: int, text: int)

  /** Positions 0 to 9 of the selected row `level, page_num, block_num, par_num,
      line_num, word_num, left, top, width, height, conf, text`. */
  function AsWrittenRow(t: TokenRow): ResultRow
  {
    var e := t.entry;
    ResultRow(e.level, e.pageNum, e.blockNum, e.parNum, e.lineNum, e.wordNum, e.left, e.top,
              e.width, e.height)
  }

  /** `SELECT ... FROM ocr_results WHERE uuid = ?`, in table order. */
  function TokensOf(tokens: seq<TokenRow>, taskId: string): (rows: seq<TokenRow>)
    ensures forall t :: t in rows ==> t in tokens && t.uuid == taskId
    ensures forall t :: t in tokens && t.uuid == taskId ==> t in rows
  {
    if tokens == [] then []
    else
      var rest := TokensOf(tokens[..|tokens| - 1], taskId);
      var last := tokens[|tokens| - 1];
      assert forall t :: t in tokens ==> t in tokens[..|tokens| - 1] || t == last;
      if last.uuid == taskId then rest + [last] else rest
  }

  lemma {:induction false} TokensOfAppend(a: seq<TokenRow>, b: seq<TokenRow>, taskId: string)
    ensures TokensOf(a + b, taskId) == TokensOf(a, taskId) + TokensOf(b, taskId)
  {
    if b == [] {
      assert a + b == a;
    } else {
      assert (a + b)[..|a + b| - 1] == a + b[..|b| - 1];
      TokensOfAppend(a, b[..|b| - 1], taskId);
    }
  }

  /** A job whose id no earlier row carries sees exactly the rows its run appended. */
  lemma OwnTokens(before: seq<TokenRow>, added: seq<TokenRow>, taskId: string)
    requires forall t :: t in before ==> t.uuid != taskId
    requires forall t :: t in added ==> t.uuid == taskId
    ensures TokensOf(before + added, taskId) == added
  {
    TokensOfAppend(before, added, taskId);
    OnlyMine(added, taskId);
    NoneMine(before, taskId);
  }

  lemma {:induction false} OnlyMine(rows: seq<TokenRow>, taskId: string)
    requires forall t :: t in rows ==> t.uuid == taskId
    ensures TokensOf(rows, taskId) == rows
  {
    if rows != [] {
      assert rows[|rows| - 1] in rows;
      OnlyMine(rows[..|rows| - 1], taskId);
      assert rows[..|rows| - 1] + [rows[|rows| - 1]] == rows;
    }
  }

  lemma {:induction false} NoneMine(rows: seq<TokenRow>, taskId: string)
    requires forall t :: t in rows ==> t.uuid != taskId
    ensures TokensOf(rows, taskId) == []
  {
    if rows != [] {
      assert rows[|rows| - 1] in rows;
      NoneMine(rows[..|rows| - 1], taskId);
    }
  }

  /** `page_info` is shown decoded when it is non-empty, `None` otherwise. */
  function PageInfoView(v: Value): Value
  {
    if v == Null || v == Text("") then Null else v
  }

  /** The `page_info` a job shows once its run is over: after a completed run the page
      list written, even an empty one; after a failed run of a fresh job, none. */
  lemma PageInfoShown(before: Row, contents: Bytes, p: Requests.OcrParams, eng: Engine,
                      endTime: string, prefix: string)
    requires Cell(before, PageInfo) == Null
    ensures var row := before + Lifecycle.ProcessingPatch(contents, p)
                              + Lifecycle.TerminalPatch(contents, p, eng, endTime, prefix);
      match Lifecycle.Pipeline(eng, contents, p)
      case Ok(run) => PageInfoView(Cell(row, PageInfo)) == Pages(Lifecycle.PageDimsOf(run.pics))
      case Err(_) => PageInfoView(Cell(row, PageInfo)) == Null
  {
    Lifecycle.AfterRunRow(before, contents, p, eng, endTime, prefix);
  }

  /** The body of a `get_result` reply. `errorMessage` and `results` are `None` where the
      reply has no such key. */
  datatype JobView = JobView(
    state: State, status: Value, fileName: Value, fileType: Value, numPages: Value,
    startDatetime: Value, endDatetime: Value, dpi: Value, pageInfo: Value, psmType: Value,
    errorMessage: Option<Value>, results: Option<seq<ResultRow>>)

  datatype ResultReply = NotFound | Found(view: JobView)

  /** The fields every branch of `get_result` copies from the row. */
  predicate ShowsRow(v: JobView, row: Row)
  {
    && v.status == StatusOf(row) && v.fileName == Cell(row, FileName)
    && v.fileType == Cell(row, FileType) && v.numPages == Cell(row, NumPages)
    && v.startDatetime == Cell(row, StartDatetime) && v.endDatetime == Cell(row, EndDatetime)
    && v.dpi == Cell(row, Dpi) && v.pageInfo == PageInfoView(Cell(row, PageInfo))
    && v.psmType == Cell(row, PsmType)
  }

  /** `get_result`: 404 for an unknown id; otherwise the row's fields under the `state`
      its status maps to, the error message for FAILED and RUNNING, and the job's tokens
      for SUCCESS only. */
  method GetResult(jobs: JobTable, tokens: seq<TokenRow>, taskId: string) returns (r: ResultReply)
    ensures r == NotFound <==> taskId !in jobs
    ensures taskId in jobs ==>
      && r.Found?
      && var row, v := jobs[taskId], r.view;
      && ShowsRow(v, row)
      && v.state == StateOf(StatusOf(row))
      && (v.errorMessage.Some? <==> v.state == FAILED || v.state == RUNNING)
      && (v.errorMessage.Some? ==> v.errorMessage.value == Cell(row, ErrorMessage))
      && (v.results.Some? <==> v.state == SUCCESS)
      && (v.results.Some? ==>
            var rows := TokensOf(tokens, taskId);
            |v.results.value| == |rows| &&
            forall k :: 0 <= k < |rows| ==> v.results.value[k] == AsWrittenRow(rows[k]))
  {
    if taskId !in jobs {
      return NotFound;
    }
    var row := jobs[taskId];
    var ocrRows := TokensOf(tokens, taskId);
    var status := StatusOf(row);
    var shown := JobView(PENDING, status, Cell(row, FileName), Cell(row, FileType), Cell(row, NumPages),
                         Cell(row, StartDatetime), Cell(row, EndDatetime), Cell(row, Dpi),
                         PageInfoView(Cell(row, PageInfo)), Cell(row, PsmType), None, None);
    if status == Completed {
      var results: seq<ResultRow> := [];
      var i := 0;
      while i < |ocrRows|
        invariant 0 <= i <= |ocrRows|
        invariant |results| == i
        invariant forall k :: 0 <= k < i ==> results[k] == AsWrittenRow(ocrRows[k])
      {
        results := results + [AsWrittenRow(ocrRows[i])];
        i := i + 1;
      }
      r := Found(shown.(state := SUCCESS, results := Some(results)));
    } else if status == Failed {
      r := Found(shown.(state := FAILED, errorMessage := Some(Cell(row, ErrorMessage))));
    } else if status == Text("running") {
      r := Found(shown.(state := RUNNING, errorMessage := Some(Cell(row, ErrorMessage))));
    } else {
      r := Found(shown);
    }
  }

  /** What the SUCCESS view shows under `conf` and `text`: the width and the height. */
  lemma SuccessViewMislabels(t: TokenRow)
    ensures AsWrittenRow(t).conf == t.entry.width && AsWrittenRow(t).text == t.entry.height
    ensures t == TokenRow("job", Entry(5, 1, 1, 1, 1, 1, 36, 92, 120, 24, 96, "Invoice")) ==>
      AsWrittenRow(t).conf != t.entry.conf && AsWrittenRow(t).conf == 120
  {
  }

  /** The evidently intended SUCCESS view: every column under its own key, as the
      synchronous endpoint returns it. */
  function IntendedResults(rows: seq<TokenRow>): (es: seq<Entry>)
    ensures |es| == |rows|
    ensures forall k :: 0 <= k < |rows| ==> es[k].conf == rows[k].entry.conf && es[k].text == rows[k].entry.text
  {
    seq(|rows|, k requires 0 <= k < |rows| => rows[k].entry)
  }

  /** With the intended view, a job whose pages were saved under a fresh id shows the
      engine's confidence and text of every token, in the order the engine reported them. */
  lemma IntendedResultsShowText(before: seq<TokenRow>, pages: seq<PageData>, taskId: string)
    requires forall t :: t in before ==> t.uuid != taskId
    ensures var shown := IntendedResults(TokensOf(before + TokenRows(pages, taskId), taskId));
      var engine := Lifecycle.EngineEntries(pages);
      |shown| == |engine| &&
      forall k :: 0 <= k < |shown| ==> shown[k].conf == engine[k].conf && shown[k].text == engine[k].text
  {
    TokenRowsShape(pages, taskId);
    OwnTokens(before, TokenRows(pages, taskId), taskId);
    Lifecycle.EngineEntriesMatchRows(pages, taskId);
  }

  /** One element of the `jobs` list of `get_jobs`. */
  datatype JobSummary = JobSummary(
    id: string, fileName: Value, startDatetime: Value, endDatetime: Value,
    status: Value, psmType: Value, message: Value)

  datatype JobsReply = JobsReply(queue: nat, completed: nat, failed: nat, jobs: seq<JobSummary>)

  /** The selections `get_jobs` can make. */
  datatype Filter = All | FailedOnly | CompletedOnly | Waiting

  /** The `status` query parameter: "all", "failed" and "completed" as named, any other
      value the waiting jobs. */
  function ParseFilter(status: string): (f: Filter)
    ensures f == All <==> status == "all"
    ensures f == FailedOnly <==> status == "failed"
    ensures f == CompletedOnly <==> status == "completed"
    ensures f == Waiting <==> status != "all" && status != "failed" && status != "completed"
  {
    if status == "all" then All
    else if status == "failed" then FailedOnly
    else if status == "completed" then CompletedOnly
    else Waiting
  }

  /** Whether a row with this status is selected; `Waiting` means `pending` or `processing`. */
  predicate Matches(filter: Filter, status: Value)
  {
    || filter == All
    || (filter == FailedOnly && status == Failed)
    || (filter == CompletedOnly && status == Completed)
    || (filter == Waiting && (status == Pending || status == Processing))
  }

  /** The ids of the rows a filter selects. */
  function Bucket(jobs: JobTable, filter: Filter): (ids: set<string>)
    ensures ids <= jobs.Keys
  {
    set u | u in jobs && Matches(filter, StatusOf(jobs[u]))
  }

  /** `SELECT COUNT(*) ... WHERE <filter>` over the whole table. */
  function CountMatching(jobs: JobTable, filter: Filter): nat
  {
    |Bucket(jobs, filter)|
  }

  /** A count never exceeds the number of jobs, and the "all" count equals it. */
  lemma CountMatchingBounds(jobs: JobTable, filter: Filter)
    ensures CountMatching(jobs, filter) <= |jobs|
    ensures filter == All ==> CountMatching(jobs, filter) == |jobs|
  {
    var b := Bucket(jobs, filter);
    assert b + (jobs.Keys - b) == jobs.Keys;
    DisjointUnionSize(b, jobs.Keys - b);
    assert |jobs.Keys| == |jobs|;
  }

  predicate NoDuplicates(scan: seq<string>)
  {
    forall i, j :: 0 <= i < j < |scan| ==> scan[i] != scan[j]
  }

  /** The order in which the database returns the rows: every id once. */
  predicate Enumerates(scan: seq<string>, jobs: JobTable)
  {
    NoDuplicates(scan) && (forall u :: u in scan ==> u in jobs) && (forall u :: u in jobs ==> u in scan)
  }

  /** The ids a filter selects, in the database's order. */
  function Select(jobs: JobTable, scan: seq<string>, filter: Filter): (sel: seq<string>)
    requires forall u :: u in scan ==> u in jobs
    ensures forall u :: u in sel <==> u in scan && Matches(filter, StatusOf(jobs[u]))
  {
    if scan == [] then []
    else
      var rest := Select(jobs, scan[1..], filter);
      assert forall u :: u in scan <==> u == scan[0] || u in scan[1..];
      if Matches(filter, StatusOf(jobs[scan[0]])) then [scan[0]] + rest else rest
  }

  /** The ids among `scan` that a filter selects. */
  function PickedFrom(jobs: JobTable, scan: seq<string>, filter: Filter): set<string>
    requires forall u :: u in scan ==> u in jobs
  {
    set u | u in scan && Matches(filter, StatusOf(jobs[u]))
  }

  /** Selecting from an enumeration without duplicates finds as many rows as the count
      over the table. */
  lemma {:induction false} SelectCount(jobs: JobTable, scan: seq<string>, filter: Filter)
    requires forall u :: u in scan ==> u in jobs
    requires NoDuplicates(scan)
    ensures |Select(jobs, scan, filter)| == |PickedFrom(jobs, scan, filter)|
  {
    if scan != [] {
      PickedFromFirst(jobs, scan, filter);
      SelectCount(jobs, scan[1..], filter);
    }
  }

  /** The rest of a duplicate-free sequence is duplicate-free and lacks its head. */
  lemma NoDuplicatesTail(scan: seq<string>)
    requires scan != [] && NoDuplicates(scan)
    ensures NoDuplicates(scan[1..]) && scan[0] !in scan[1..]
  {
    var tail := scan[1..];
    forall i, j | 0 <= i < j < |tail| ensures tail[i] != tail[j] {
      assert tail[i] == scan[i + 1] && tail[j] == scan[j + 1];
    }
    forall i | 0 <= i < |tail| ensures tail[i] != scan[0] {
      assert tail[i] == scan[i + 1];
    }
  }

  /** Splitting off the first scanned id: it is picked, or not, on its own, and the rest
      of a duplicate-free scan does not hold it again. */
  lemma PickedFromFirst(jobs: JobTable, scan: seq<string>, filter: Filter)
    requires scan != [] && forall u :: u in scan ==> u in jobs
    requires NoDuplicates(scan)
    ensures NoDuplicates(scan[1..])
    ensures |PickedFrom(jobs, scan, filter)| ==
      |PickedFrom(jobs, scan[1..], filter)| + (if Matches(filter, StatusOf(jobs[scan[0]])) then 1 else 0)
  {
    NoDuplicatesTail(scan);
    PickedFromSplit(jobs, scan, filter);
    var part := PickedFrom(jobs, scan[1..], filter);
    if Matches(filter, StatusOf(jobs[scan[0]])) {
      assert scan[0] !in part;
      assert |part + {scan[0]}| == |part| + 1;
    }
  }

  /** The first scanned id is picked, or not, by itself; the rest come from the tail. */
  lemma PickedFromSplit(jobs: JobTable, scan: seq<string>, filter: Filter)
    requires scan != [] && forall u :: u in scan ==> u in jobs
    ensures PickedFrom(jobs, scan, filter) ==
      PickedFrom(jobs, scan[1..], filter) + (if Matches(filter, StatusOf(jobs[scan[0]])) then {scan[0]} else {})
  {
    assert forall u :: u in scan <==> u == scan[0] || u in scan[1..];
  }

  /** One element of the list: the `message` key carries the row's error message. */
  function Summary(id: string, row: Row): JobSummary
  {
    JobSummary(id, Cell(row, FileName), Cell(row, StartDatetime), Cell(row, EndDatetime),
               StatusOf(row), Cell(row, PsmType), Cell(row, ErrorMessage))
  }

  /** Over an enumeration of the table, the selection has as many rows as the count. */
  lemma SelectedCount(jobs: JobTable, scan: seq<string>, filter: Filter)
    requires Enumerates(scan, jobs)
    ensures |Select(jobs, scan, filter)| == CountMatching(jobs, filter)
    ensures filter == All ==> CountMatching(jobs, filter) == |jobs|
  {
    SelectCount(jobs, scan, filter);
    assert PickedFrom(jobs, scan, filter) == Bucket(jobs, filter);
    if filter == All {
      assert Bucket(jobs, filter) == jobs.Keys;
    }
  }

  /** `get_jobs`: the three bucket counts over the whole table, whatever the filter, and
      one summary per selected row, in the database's order. */
  method GetJobs(jobs: JobTable, scan: seq<string>, filter: string) returns (r: JobsReply)
    requires Enumerates(scan, jobs)
    ensures r.queue == CountMatching(jobs, Waiting)
    ensures r.completed == CountMatching(jobs, CompletedOnly)
    ensures r.failed == CountMatching(jobs, FailedOnly)
    ensures |r.jobs| == CountMatching(jobs, ParseFilter(filter))
    ensures filter == "all" ==> |r.jobs| == |jobs|
    ensures var selected := Select(jobs, scan, ParseFilter(filter));
      |r.jobs| == |selected| &&
      forall k :: 0 <= k < |selected| ==> r.jobs[k] == Summary(selected[k], jobs[selected[k]])
  {
    var selected := Select(jobs, scan, ParseFilter(filter));
    var response: seq<JobSummary> := [];
    var i := 0;
    while i < |selected|
      invariant 0 <= i <= |selected|
      invariant |response| == i
      invariant forall k :: 0 <= k < i ==> response[k] == Summary(selected[k], jobs[selected[k]])
    {
      response := response + [Summary(selected[i], jobs[selected[i]])];
      i := i + 1;
    }
    SelectedCount(jobs, scan, ParseFilter(filter));
    r := JobsReply(CountMatching(jobs, Waiting), CountMatching(jobs, CompletedOnly),
                   CountMatching(jobs, FailedOnly), response);
  }

  lemma DisjointUnionSize(a: set<string>, b: set<string>)
    requires a !! b
    ensures |a + b| == |a| + |b|
  {
    if a != {} {
      var x :| x in a;
      DisjointUnionSize(a - {x}, b);
      assert (a - {x}) + b == (a + b) - {x};
    }
  }

  /** The three counted buckets never share a job, and the "all" bucket is the table. */
  lemma BucketsDisjoint(jobs: JobTable)
    ensures Bucket(jobs, Waiting) !! Bucket(jobs, CompletedOnly)
    ensures Bucket(jobs, Waiting) !! Bucket(jobs, FailedOnly)
    ensures Bucket(jobs, CompletedOnly) !! Bucket(jobs, FailedOnly)
    ensures Bucket(jobs, All) == jobs.Keys
  {
    StatusesDistinct();
  }

  lemma BucketsCover(jobs: JobTable)
    requires forall u :: u in jobs ==> Lifecycle.KnownStatus(StatusOf(jobs[u]))
    ensures Bucket(jobs, Waiting) + Bucket(jobs, CompletedOnly) + Bucket(jobs, FailedOnly) == jobs.Keys
  {
    forall u | u in jobs
      ensures u in Bucket(jobs, Waiting) + Bucket(jobs, CompletedOnly) + Bucket(jobs, FailedOnly)
    {
      assert Lifecycle.KnownStatus(StatusOf(jobs[u]));
    }
  }

  /** When every row holds a status the service writes, the three buckets split the
      table: each job is counted exactly once. */
  lemma BucketsPartition(jobs: JobTable)
    requires forall u :: u in jobs ==> Lifecycle.KnownStatus(StatusOf(jobs[u]))
    ensures CountMatching(jobs, Waiting) + CountMatching(jobs, CompletedOnly) + CountMatching(jobs, FailedOnly) == |jobs|
  {
    BucketsDisjoint(jobs);
    BucketsCover(jobs);
    var q, c, f := Bucket(jobs, Waiting), Bucket(jobs, CompletedOnly), Bucket(jobs, FailedOnly);
    assert (q + c) !! f;
    DisjointUnionSize(q, c);
    DisjointUnionSize(q + c, f);
    assert |jobs.Keys| == |jobs|;
  }
}
