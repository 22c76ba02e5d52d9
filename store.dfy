/** The job and token tables of the new service and the four operations on them
    (`create_job`, `update_job`, `save_ocr_results`, `check_db_operations`). */
module Store {
  import opened Basics
  import opened Tesseract

  /** The columns of the `jobs` table other than its primary key `uuid`. */
  datatype Column =
    | FileName | FileType | NumPages | StartDatetime | EndDatetime
    | Status | Dpi | PageInfo | PsmType | ErrorMessage

  /** One element of the `page_info` list: a page's number and its size in pixels. */
  datatype PageDims = PageDims(pageNum: int, width: int, height: int)

  /** A stored cell. `page_info` holds a serialised list of page sizes; the model keeps
      the list itself. */
  datatype Value = Null | Int(i: int) | Text(s: string) | Pages(pages: seq<PageDims>)

  /** A job row: a column absent from the map holds SQL NULL. */
  type Row = map<Column, Value>

  /** The `jobs` table, keyed by `uuid`. */
  type JobTable = map<string, Row>

  /** One row of `ocr_results`; its `id` is its position in the table. */
  datatype TokenRow = TokenRow(uuid: string, entry: Entry)

  /** One recognised page as handed to `save_ocr_results`: the engine's columns and the
      page's own number. */
  datatype PageData = PageData(data: TessData, pageNum: int)

  function Cell(row: Row, c: Column): Value
  {
    if c in row then row[c] else Null
  }

  function StatusOf(row: Row): Value { Cell(row, Status) }

  const Pending := Text("pending")
  const Processing := Text("processing")
  const Completed := Text("completed")
  const Failed := Text("failed")

  /** The four status texts are pairwise distinct. */
  lemma StatusesDistinct()
    ensures Pending != Processing && Pending != Completed && Pending != Failed
    ensures Processing != Completed && Processing != Failed && Completed != Failed
  {
    assert Pending.s[1] != Processing.s[1];
    assert Pending.s[0] != Completed.s[0] && Pending.s[0] != Failed.s[0];
    assert Processing.s[0] != Completed.s[0] && Processing.s[0] != Failed.s[0];
    assert Completed.s[0] != Failed.s[0];
  }

  /** The row `create_job` inserts: name, start time and status `pending`, every other
      column NULL. */
  function NewJob(fileName: string, startDatetime: string): (row: Row)
    ensures Cell(row, FileName) == Text(fileName)
    ensures Cell(row, StartDatetime) == Text(startDatetime)
    ensures StatusOf(row) == Pending
    ensures forall c :: c != FileName && c != StartDatetime && c != Status ==> Cell(row, c) == Null
  {
    map[FileName := Text(fileName), StartDatetime := Text(startDatetime), Status := Pending]
  }

  /** The table after `UPDATE jobs SET <fields> WHERE uuid = id`: the named columns of
      the matching row take the given values; no row matches an unknown id. */
  function Patched(jobs: JobTable, id: string, fields: Row): (r: JobTable)
    ensures r.Keys == jobs.Keys
    ensures forall u :: u in jobs && u != id ==> r[u] == jobs[u]
    ensures id in jobs ==> forall c :: Cell(r[id], c) == (if c in fields then fields[c] else Cell(jobs[id], c))
    ensures id !in jobs ==> r == jobs
  {
    if id in jobs then jobs[id := jobs[id] + fields] else jobs
  }

  /** The rows one page contributes: every engine token, stamped with the job's id and
      the page's own number in place of the engine's `page_num` column. */
  function PageRows(page: PageData, taskId: string): (rows: seq<TokenRow>)
    ensures |rows| == Size(page.data)
  {
    seq(Size(page.data), i requires 0 <= i < Size(page.data) =>
      TokenRow(taskId, EntryAt(page.data, i).(pageNum := page.pageNum)))
  }

  /** The rows `save_ocr_results` appends: page after page, token after token, as many
      as the pages have tokens. */
  function TokenRows(pages: seq<PageData>, taskId: string): (rows: seq<TokenRow>)
  {
    if pages == [] then []
    else TokenRows(pages[..|pages| - 1], taskId) + PageRows(pages[|pages| - 1], taskId)
  }

  /** Total number of engine tokens over all pages (the sum of `len(level)`). */
  function TotalSize(pages: seq<PageData>): nat
  {
    if pages == [] then 0 else TotalSize(pages[..|pages| - 1]) + Size(pages[|pages| - 1].data)
  }

  function PageNums(pages: seq<PageData>): set<int>
  {
    set p | p in pages :: p.pageNum
  }

  /** What `save_ocr_results` appends: one row per token of every page, all carrying the
      job's id and the number of a saved page. */
  lemma {:induction false} TokenRowsShape(pages: seq<PageData>, taskId: string)
    ensures |TokenRows(pages, taskId)| == TotalSize(pages)
    ensures forall r :: r in TokenRows(pages, taskId) ==> r.uuid == taskId && r.entry.pageNum in PageNums(pages)
  {
    if pages != [] {
      var init, last := pages[..|pages| - 1], pages[|pages| - 1];
      TokenRowsShape(init, taskId);
      assert PageNums(init) <= PageNums(pages) by {
        forall p | p in init ensures p in pages { }
      }
      assert last in pages;
      forall r | r in PageRows(last, taskId) ensures r.uuid == taskId && r.entry.pageNum == last.pageNum { }
    }
  }

  lemma {:induction false} TokenRowsLength(pages: seq<PageData>, taskId: string)
    ensures |TokenRows(pages, taskId)| == TotalSize(pages)
  {
    if pages != [] {
      TokenRowsLength(pages[..|pages| - 1], taskId);
    }
  }

  /** Each row comes from one page and carries that page's number: token `k` of page `p`
      sits right after the rows of the earlier pages, with the page's own `page_num`. */
  lemma TokenRowsByPage(pages: seq<PageData>, taskId: string)
    ensures forall p: nat, k: nat :: p < |pages| && k < Size(pages[p].data) ==>
      RowOfPage(pages, taskId, p, k)
  {
    forall p: nat, k: nat | p < |pages| && k < Size(pages[p].data)
      ensures RowOfPage(pages, taskId, p, k)
    {
      TokenRowAt(pages, taskId, p, k);
    }
  }

  lemma TokenRowAt(pages: seq<PageData>, taskId: string, p: nat, k: nat)
    requires p < |pages| && k < Size(pages[p].data)
    ensures RowOfPage(pages, taskId, p, k)
  {
    TokenRowsOfPage(pages, p, taskId);
    TokenRowsLength(pages[..p], taskId);
    IndexInMiddle(TokenRows(pages[..p], taskId), PageRows(pages[p], taskId), TokenRows(pages[p + 1..], taskId), k);
  }

  lemma IndexInMiddle<T>(before: seq<T>, here: seq<T>, after: seq<T>, k: nat)
    requires k < |here|
    ensures |before| + k < |before + here + after|
    ensures (before + here + after)[|before| + k] == here[k]
  {
  }

  /** Token `k` of page `p` is stored at offset `k` after the rows of the earlier pages,
      under the job's id and with the page's own number. */
  predicate RowOfPage(pages: seq<PageData>, taskId: string, p: nat, k: nat)
    requires p < |pages| && k < Size(pages[p].data)
  {
    && TotalSize(pages[..p]) + k < |TokenRows(pages, taskId)|
    && TokenRows(pages, taskId)[TotalSize(pages[..p]) + k] ==
         TokenRow(taskId, EntryAt(pages[p].data, k).(pageNum := pages[p].pageNum))
  }

  /** One more page adds that page's rows at the end. */
  lemma TokenRowsNext(before: seq<TokenRow>, pages: seq<PageData>, p: nat, taskId: string)
    requires p < |pages|
    ensures before + TokenRows(pages[..p], taskId) + PageRows(pages[p], taskId) ==
            before + TokenRows(pages[..p + 1], taskId)
  {
    var upTo := pages[..p + 1];
    assert upTo[..|upTo| - 1] == pages[..p] && upTo[|upTo| - 1] == pages[p];
    assert TokenRows(upTo, taskId) == TokenRows(pages[..p], taskId) + PageRows(pages[p], taskId);
  }

  /** The rows of page `p` sit between those of the pages before and after it. */
  lemma TokenRowsOfPage(pages: seq<PageData>, p: nat, taskId: string)
    requires p < |pages|
    ensures TokenRows(pages, taskId) ==
      TokenRows(pages[..p], taskId) + PageRows(pages[p], taskId) + TokenRows(pages[p + 1..], taskId)
  {
    var upTo := pages[..p + 1];
    assert upTo[..|upTo| - 1] == pages[..p];
    assert pages == upTo + pages[p + 1..];
    TokenRowsAppend(upTo, pages[p + 1..], taskId);
  }

  /** Saving pages in two batches gives the rows of one batch in page order. */
  lemma {:induction false} TokenRowsAppend(a: seq<PageData>, b: seq<PageData>, taskId: string)
    ensures TokenRows(a + b, taskId) == TokenRows(a, taskId) + TokenRows(b, taskId)
  {
    if b == [] {
      assert a + b == a;
    } else {
      var b', last := b[..|b| - 1], b[|b| - 1];
      assert (a + b)[..|a + b| - 1] == a + b';
      assert (a + b)[|a + b| - 1] == last;
      assert TokenRows(a + b, taskId) == TokenRows(a + b', taskId) + PageRows(last, taskId);
      assert TokenRows(b, taskId) == TokenRows(b', taskId) + PageRows(last, taskId);
      TokenRowsAppend(a, b', taskId);
    }
  }

  const UniqueViolation := "UNIQUE constraint failed: jobs.uuid"

  /** The row `check_db_operations` inserts and deletes again. */
  function TestRow(now: string): Row
  {
    map[FileName := Text("test_file"), StartDatetime := Text(now), Status := Text("test_status")]
  }

  /** The store behind the process-wide connection. `jobs` and `results` are the tables as
      this connection sees them, uncommitted writes included; `durableJobs` and
      `durableResults` are what has been committed and what every other connection reads. */
  class Database {
    var jobs: JobTable
    var results: seq<TokenRow>
    var durableJobs: JobTable
    var durableResults: seq<TokenRow>

    /** Between operations no write is left uncommitted. */
    ghost predicate Valid()
      reads this
    {
      jobs == durableJobs && results == durableResults
    }

    /** A freshly initialised database: both tables empty. */
    constructor ()
      ensures Valid() && jobs == map[] && results == []
    {
      jobs, results := map[], [];
      durableJobs, durableResults := map[], [];
    }

    method Commit()
      modifies this
      ensures Valid() && jobs == old(jobs) && results == old(results)
    {
      durableJobs, durableResults := jobs, results;
    }

    /** `create_job`: inserts a `pending` row, or fails on a duplicate primary key and
        leaves the tables as they were. */
    method CreateJob(taskId: string, fileName: string, startDatetime: string) returns (r: Result<()>)
      requires Valid()
      modifies this
      ensures Valid()
      ensures taskId in old(jobs) ==>
        r == Err("Failed to create job with id: " + taskId + ": " + UniqueViolation) && jobs == old(jobs)
      ensures taskId !in old(jobs) ==>
        r == Ok(()) && jobs == old(jobs)[taskId := NewJob(fileName, startDatetime)]
      ensures results == old(results)
    {
      if taskId in jobs {
        r := Err("Failed to create job with id: " + taskId + ": " + UniqueViolation);
        return;
      }
      jobs := jobs[taskId := NewJob(fileName, startDatetime)];
      Commit();
      r := Ok(());
    }

    /** `update_job`: an empty patch raises; otherwise the row with that id (if any) takes
        the given values and nothing else changes. */
    method UpdateJob(taskId: string, fields: Row) returns (r: Result<()>)
      requires Valid()
      modifies this
      ensures Valid()
      ensures |fields| == 0 ==> r == Err("No fields to update provided.") && jobs == old(jobs)
      ensures |fields| != 0 ==> r == Ok(()) && jobs == Patched(old(jobs), taskId, fields)
      ensures results == old(results)
    {
      if |fields| == 0 {
        r := Err("No fields to update provided.");
        return;
      }
      jobs := Patched(jobs, taskId, fields);
      Commit();
      r := Ok(());
    }

    /** `save_ocr_results`: appends the rows of every page, and commits once, after the
        last insert. */
    method SaveOcrResults(allData: seq<PageData>, taskId: string)
      requires Valid()
      modifies this
      ensures Valid()
      ensures results == old(results) + TokenRows(allData, taskId)
      ensures jobs == old(jobs)
    {
      var p := 0;
      while p < |allData|
        invariant 0 <= p <= |allData|
        invariant results == old(results) + TokenRows(allData[..p], taskId)
        invariant jobs == old(jobs)
        invariant durableJobs == old(durableJobs) && durableResults == old(durableResults)
      {
        InsertPage(allData[p], taskId);
        TokenRowsNext(old(results), allData, p, taskId);
        p := p + 1;
      }
      assert allData[..p] == allData;
      Commit();
    }

    /** The inner loop of `save_ocr_results`: one uncommitted insert per token of a page. */
    method InsertPage(page: PageData, taskId: string)
      modifies this
      ensures results == old(results) + PageRows(page, taskId)
      ensures jobs == old(jobs) && durableJobs == old(durableJobs) && durableResults == old(durableResults)
    {
      var i := 0;
      while i < Size(page.data)
        invariant 0 <= i <= Size(page.data)
        invariant results == old(results) + PageRows(page, taskId)[..i]
        invariant jobs == old(jobs) && durableJobs == old(durableJobs) && durableResults == old(durableResults)
      {
        results := results + [TokenRow(taskId, EntryAt(page.data, i).(pageNum := page.pageNum))];
        assert PageRows(page, taskId)[..i + 1] == PageRows(page, taskId)[..i] + [PageRows(page, taskId)[i]];
        i := i + 1;
      }
      assert PageRows(page, taskId)[..i] == PageRows(page, taskId);
    }

    /** `check_db_operations`: inserts a test row, checks it is visible, deletes it, checks
        it is gone and commits. It fails only when the test id is already taken. */
    method CheckDbOperations(testUuid: string, now: string) returns (r: Result<()>)
      requires Valid()
      modifies this
      ensures Valid()
      ensures jobs == old(jobs) && results == old(results)
      ensures r.Err? <==> testUuid in old(jobs)
      ensures r.Err? ==> r.message == "Database operation check failed: " + UniqueViolation
    {
      if testUuid in jobs {
        r := Err("Database operation check failed: " + UniqueViolation);
        return;
      }
      jobs := jobs[testUuid := TestRow(now)];
      assert testUuid in jobs;  // the insertion is visible
      jobs := jobs - {testUuid};
      assert testUuid !in jobs;  // the deletion took effect
      assert jobs == old(jobs);
      Commit();
      r := Ok(());
    }
  }
}
