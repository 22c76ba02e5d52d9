# OCR job bookkeeping — a Dafny model

This project models the bookkeeping core of a small OCR web service built on the
Tesseract engine. Each upload becomes a *job*. The job row lives in a `jobs` table and
moves through `pending`, `processing` and then `completed` or `failed`. Every recognised token
becomes a row of an append-only `ocr_results` table. The read endpoints turn these rows
into replies.

The model covers three source files:

- **`src/app/database.py`, imperative → module `Store`.** The store is a class
  `Database`. It has the tables as this connection sees them (`jobs`, `results`) and as committed
  (`durableJobs`, `durableResults`). Its methods are `create_job`,
  `update_job`, `save_ocr_results` and `check_db_operations`. A job row is a map from
  column to value; an absent column is SQL NULL.
- **`src/app/main.py`, mixed.**
  - `Requests` holds the pure request helpers: the `%PDF` sniff, the engine configuration
    string, and the three endpoints' parameter checks.
  - `Lifecycle` holds the background task `process_file`, the asynchronous
    `start_ocr_processing`, and the synchronous `perform_ocr` with its flattening loop.
    These are module-level methods that take the store as a `Database` argument and
    change it. They are proved against specification functions (`Pipeline`, `AfterRun`,
    `RunTokens`).
  - `Queries` holds `get_result` and `get_jobs`.
- **`main.py` (the earlier single-image service) → module `Legacy`.** It contains
  `upload_image`, `process_image` and the two-branch `get_result`.

Supporting modules:

- `Basics` holds `Option`, `Result` and `StartsWith`.
- `Numerals` renders integers the way Python's `str` does.
- `Tesseract` defines the engine's column dictionary, its tokens, and the collaborators.
  The collaborators are the PDF rasteriser, the image opener and the recogniser. They are
  supplied as functions, and each may fail with a message.

The current time, fresh uuids and the set of installed languages are parameters.
A background task is modelled as a later, separate call. Both upload endpoints create the
job and return a reply. Then `Lifecycle.ProcessFile` or
`Legacy.LegacyDatabase.ProcessImage` runs on the same store.

## Model

| member | source | states |
|---|---|---|
| Store.Database.constructor | src/app/database.py:35-73 | a new database file, once its two tables are created, has empty `jobs` and `ocr_results` tables and nothing uncommitted |
| Store.NewJob | src/app/database.py:115-120 | the inserted row holds the file name, the start time and status `pending`, and every other column is NULL |
| Store.Database.CreateJob | src/app/database.py:115-128 | a fresh id adds exactly that row and nothing else; a taken id fails with "Failed to create job with id: <id>: UNIQUE constraint failed: jobs.uuid" and leaves both tables unchanged; the write is committed |
| Store.Patched | src/app/database.py:135-142 | the row with that id takes the patch's values in the named columns and keeps every other column; other rows are untouched; an unknown id changes nothing |
| Store.Database.UpdateJob | src/app/database.py:131-150 | an empty patch fails with "No fields to update provided." and changes nothing; otherwise the table becomes the patched table, the token table is unchanged, and the write is committed |
| Store.PageRows | src/app/database.py:159-187 | one page contributes exactly as many rows as the engine reported tokens |
| Store.TokenRowsShape | src/app/database.py:159-187 | a save appends exactly the sum over pages of the token counts; every row carries the task id and the number of a saved page, not the engine's `page_num` column |
| Store.TokenRowsOfPage | src/app/database.py:159-187 | the rows of page `p` sit between the rows of the earlier pages and the rows of the later ones |
| Store.TokenRowsByPage | src/app/database.py:159-187 | token `k` of page `p` is stored right after the rows of the earlier pages, under the task id, with page `p`'s own number and the engine's other columns |
| Store.TokenRowsAppend | src/app/database.py:159-187 | the rows follow page order: saving `a + b` gives the rows of `a` followed by the rows of `b` |
| Store.Database.SaveOcrResults | src/app/database.py:153-189 | the token table becomes its old contents followed by the rows of every page in page order, then index order; the jobs table is unchanged; nothing is committed until after the last insert |
| Store.Database.CheckDbOperations | src/app/database.py:82-112 | insert, visibility check, delete and absence check leave both tables exactly as found; the check fails exactly when the test id is already taken, with "Database operation check failed: " before the cause |
| Numerals.Decimal | src/app/main.py:80-82 | the rendering of a number is non-empty, all digits, and has no leading zero |
| Numerals.DecimalRoundTrip | src/app/main.py:80-82 | rendering loses nothing: parsing the digits gives the number back |
| Requests.FileTypeOf | src/app/main.py:51 | the file type is "PDF" exactly when there are at least four bytes and they are `%PDF`, and "Image" otherwise, short inputs included |
| Requests.BuildConfig | src/app/main.py:80-84 | the string starts with `-l <lang> --psm <psm>`; ` --dpi <dpi>` follows only for a present, nonzero resolution; ` <config>` ends it only for a non-empty `--` config; the exact length rules out anything else |
| Requests.RejectionMessageTells | src/app/main.py:337-361 | the opening words of the 400 text tell which check failed, on every endpoint: "Specified", "DPI", "Invalid PSM value" or "Config", each in both directions |
| Requests.Validate | src/app/main.py:337-361 | a request is accepted exactly when all four checks pass; each rejection is reported exactly when every earlier check passed and that check failed: language, then resolution, then mode, then config |
| Requests.PsmSetsDiffer | src/app/main.py:192-197 | the synchronous endpoint accepts {3,4,5,6,8,9,10,11,12,13}; the asynchronous and searchable endpoints accept {0,1,2,3,4,6,8,9,11,12,13}; they differ exactly on 5 and 10 and on 0 to 2 |
| Requests.AcceptedDpiIsGiven | src/app/main.py:346-349 | after validation, "resolution given" (truthiness) means "resolution present", and "flags given" means "config present and non-empty" |
| Lifecycle.DecodeResolution | src/app/main.py:66-73 | the resolution only matters for a PDF; there a missing or zero resolution both mean the rasteriser's default, and any other value is passed on as it is |
| Lifecycle.ImageUploadRow | src/app/main.py:70-121 | an upload that is not a PDF is a single page: when the opener and the engine succeed the job ends `completed` with one page of the picture's size; when either raises it ends `failed` with that exception's message after the prefix |
| Lifecycle.StartedRow | src/app/main.py:54-63 | the first update sets the status `processing`, the mode, the resolution (NULL exactly when absent) and the sniffed file type; every other column keeps its value |
| Lifecycle.CompletedRow | src/app/main.py:101-110 | the success update sets the end time, status `completed`, the page count and the page list; every other column, the error message included, keeps its value |
| Lifecycle.FailedRow | src/app/main.py:113-121 | the failure update sets the end time, status `failed` and the error message; every other column, the page count and page list included, keeps its value |
| Lifecycle.RecogniseFromSpec | src/app/main.py:77-98 | recognition succeeds exactly when the engine succeeds on every page; the pages then come in order, numbered from 1, each with the engine's own output; on failure the message is that of the first failing page |
| Lifecycle.PageDimsOf | src/app/main.py:95-98 | the page list has one entry per decoded picture |
| Lifecycle.RecognisePages | src/app/main.py:75-98 | the page loop gives the specified recognition result and, on success, `page_info` entries 1..n holding each picture's width and height |
| Lifecycle.Execute | src/app/main.py:54-122 | the run writes `processing` first, then exactly one terminal update; tokens are saved only when every page was recognised; the run's outcome is the pipeline's |
| Lifecycle.ProcessFile | src/app/main.py:45-124 | the task leaves the jobs table as specified, with the failure prefix "Failed to process image: "; it appends exactly the run's tokens; on success it returns the page sizes, the sniffed file type and the requested resolution; on failure it re-raises the same message |
| Lifecycle.NewJobConsistent | src/app/database.py:115-120 | a new job satisfies the lifecycle invariant and carries a status the service writes |
| Lifecycle.AfterRunTouchesOneRow | src/app/main.py:54-121 | a run replaces only its own row, with the processing patch and then the terminal patch applied |
| Lifecycle.AfterRunRow | src/app/main.py:54-121 | the final row keeps the name and start time; it records the mode, the resolution and the file type, and always has an end time; it is `completed` with the page count and sizes, or `failed` with the prefixed message |
| Lifecycle.RunKeepsConsistent | src/app/main.py:101-121 | a run on a non-terminal job keeps every row consistent: an end time exactly in a terminal status, an error message exactly in `failed`; the job ends terminal |
| Lifecycle.RunTokensShape | src/app/main.py:75-100 | a failed run adds no token rows; a successful one adds one per engine token, each with the task id and a page number in 1..n |
| Lifecycle.StartOcrProcessing | src/app/main.py:328-372 | a rejected request answers 400 with the first failed check's text and creates no row; an accepted one creates the `pending` job and returns its id |
| Lifecycle.FlattenResults | src/app/main.py:273-291 | the loop returns every engine token of every page, page after page, in index order |
| Lifecycle.EngineEntriesMatchRows | src/app/main.py:260-291 | the tokens returned and the rows stored correspond one to one, in order, on every column except `page_num` |
| Lifecycle.PerformOcr | src/app/main.py:170-320 | it validates with the synchronous mode set; a rejection answers 400 and writes nothing; an accepted request creates the job and runs the pipeline with the prefix "Failed to process file: "; success returns the full reply with every token; failure answers 500 with the prefixed message |
| Queries.StateOf | src/app/main.py:420-491 | `completed` maps to SUCCESS, `failed` to FAILED and `running` to RUNNING, each in both directions; every other status maps to PENDING |
| Queries.NeverRunning | src/app/main.py:465-491 | no status the service writes is shown as RUNNING, and a `processing` job is shown as PENDING |
| Queries.PageInfoShown | src/app/main.py:447 | once a fresh job's run is over, its `page_info` shows the page list written by a completed run, an empty list included (its JSON text `[]` is not the empty string), and nothing after a failed run |
| Queries.TokensOf | src/app/main.py:411-417 | the selected rows are exactly the rows carrying the task id |
| Queries.TokensOfAppend | src/app/main.py:411-417 | selecting from a table with rows appended gives the old selection followed by the selection from the appended rows |
| Queries.OwnTokens | src/app/main.py:411-417 | a job whose id no earlier row carries sees exactly the rows its run appended |
| Queries.OnlyMine | src/app/main.py:411-417 | rows that all carry the task id are selected unchanged |
| Queries.NoneMine | src/app/main.py:411-417 | rows that none carry the task id select nothing |
| Queries.GetResult | src/app/main.py:380-493 | 404 exactly for an unknown id; every branch copies the row's fields with the mapped state; the error message is present exactly for FAILED and RUNNING; results are present exactly for SUCCESS, one per selected row in order, as the source reads them |
| Queries.SuccessViewMislabels | src/app/main.py:412-434 | the SUCCESS view's `conf` and `text` are the token's width and height; a concrete token shows 120 under `conf`, where its confidence is 96 |
| Queries.IntendedResults | src/app/main.py:420-436 | the corrected view has one entry per selected row, with the row's own confidence and text |
| Queries.IntendedResultsShowText | src/app/main.py:420-436 | once a job's pages are saved under a fresh id, the corrected view shows the engine's confidence and text for every token, in the engine's order |
| Queries.ParseFilter | src/app/main.py:558-577 | "all", "failed" and "completed" select their own filter, each in both directions; any other value selects the waiting jobs |
| Queries.CountMatchingBounds | src/app/main.py:546-556 | a count never exceeds the number of jobs, and the "all" count equals it |
| Queries.BucketsDisjoint | src/app/main.py:548-556 | no job is in two of the queue, completed and failed buckets; the "all" bucket is the whole table |
| Queries.Select | src/app/main.py:558-579 | the selection holds exactly the scanned ids whose status the filter matches |
| Queries.SelectCount | src/app/main.py:558-579 | a duplicate-free scan selects as many rows as it has matching ids |
| Queries.SelectedCount | src/app/main.py:558-579 | over an enumeration of the table, the selection has as many rows as the filter's count; "all" selects every row |
| Queries.GetJobs | src/app/main.py:542-602 | the three counts cover the whole table whatever the filter; the list has one summary per selected row, in the database's order, and as many entries as the filter's count; "all" lists every job; each summary carries the row's id, name, start and end times, status and mode, and its error message under `message` |
| Queries.BucketsPartition | src/app/main.py:546-556 | when every status is one the service writes, queue + completed + failed equals the number of jobs |
| Legacy.LegacyDatabase.constructor | src/database.py:3-41 | the earlier store starts with empty tables and nothing uncommitted |
| Legacy.LegacyDatabase.UploadImage | main.py:65-79 | a fresh id adds exactly one `in_progress` row with the file name and start time, and returns the id; a taken id fails and changes nothing |
| Legacy.InsertedRows | main.py:34-46 | exactly as many rows as the engine reported tokens |
| Legacy.PageNumberSources | main.py:42 | the earlier service stores the engine's own `page_num`; the new one stores the page's number; every other column agrees |
| Legacy.CompletedJobs | main.py:48-52 | the completion update gives that job alone status `completed`, the end time and the image's width and height; it keeps the name and start time; an unknown id changes nothing |
| Legacy.LegacyDatabase.ProcessImage | main.py:23-55 | a decoder that raises fails with its message; a decoder that yields no image fails with the attribute error; an engine failure fails with its message; none of these writes anything; otherwise every token is appended with the engine's page number, and that job alone gets `completed`, the end time, and the image's width and height, all in one commit |
| Legacy.LegacyStateOf | main.py:101-131 | `completed` maps to SUCCESS; every other status, `in_progress` included, maps to PENDING |
| Legacy.GetResult | main.py:81-140 | 404 exactly for an unknown id; the row's fields always; all twelve token columns, in order, exactly for `completed` |
| Legacy.UploadThenProcess | main.py:65-140 | an uploaded job shows PENDING; after processing it shows SUCCESS with the image size, and the query returns exactly the engine's entries; other jobs are untouched |

## Left out

- Request plumbing is not modelled: routing, reading the upload, building JSON responses and HTTP exceptions. Replies are datatypes that carry the status outcome and the message.
- Storage I/O is not modelled: the connection singleton, WAL mode, timeouts and threads. The committed/working split in the store classes stands in for transactions.
- The read endpoints open their own connections, so they receive the committed tables as values.
- The foreign libraries are not modelled: pytesseract, pdf2image, PIL and cv2. They are arrow-typed collaborators whose results are given.
- The RGB conversion of each page is not modelled. The model passes the decoded picture to the engine as it is.
- Queries.GetJobs: the order in which SQLite returns the rows is a parameter. The only assumption is that it lists every id exactly once.
- Queries.GetResult: the token order is the table's insertion order.
- `json.dumps` and `json.loads` of `page_info` are not modelled, because they are library serialisation. The list of page sizes is stored as it is.
- The background scheduling (`BackgroundTasks`, `asyncio.sleep`) is concurrency. A scheduled task is a later, separate call.
- Interleavings with other requests are not modelled.
- `uuid4()`, `datetime.now()` and `get_languages` are nondeterministic or environmental. They are parameters.
- `generate_pdf` and `delete_file` are left out; they are temp-file I/O and the PDF renderer. `generate_searchable_pdf` is modelled only through its checks (`Requests.Validate` with the `Searchable` endpoint).
- `get_info`, `health_check` and `root` are left out; they are subprocess, disk and filesystem probes.
- `init_db` runs `CREATE TABLE IF NOT EXISTS`. Only its effect on a new database file is modelled: the constructors start with empty tables. Reopening an existing file, which keeps its rows, is not modelled. Its columns are the `Column` datatype and the `Entry` fields.
- `Tesseract.TessData`: engine output whose columns have different lengths is not modelled. In the source that raises an IndexError inside the save loop.
- `Tesseract.Entry`: `conf` is an integer, as the `ocr_results` schema declares. Engine versions that report a fractional confidence are not modelled.
- Store.Database.UpdateJob: does not model the "Failed to update job with id" error, because a patch can only name existing columns (`Column`). The source builds the SET clause from arbitrary keys.
- Store.Database.CreateJob: the SQLite message after the id prefix is modelled only for the duplicate-key case. No other SQLite error can arise in the model.
- Legacy.LegacyDatabase.UploadImage: a duplicate id gives the bare constraint message. The source lets the sqlite3 exception escape unwrapped.
- Requests.RejectionMessage: a language rejection gives only the `error` text. The model omits the `available_languages` list the sync and async endpoints attach.
- Lifecycle.PerformOcr: a database error raised by `create_job` appears as a crash reply. Internal errors of the later store calls cannot arise in the model.
- Legacy.LegacyDatabase.ProcessImage: the colour decoding is not modelled, because `cv2.imdecode` is a given collaborator. Only the image's width and height are kept.

## Findings

| source | as written | input that shows it | evidently intended | confidence | as-written member | corrected member |
|---|---|---|---|---|---|---|
| src/app/main.py:433-434 | the SUCCESS view of `get_result` reads `conf` from `row[8]` and `text` from `row[9]`. The query selects `level, page_num, block_num, par_num, line_num, word_num, left, top, width, height, conf, text`, so these positions hold the token's width and height | a completed job with the token (level 5, left 36, top 92, width 120, height 24, conf 96, text "Invoice") shows `conf` 120 and `text` 24 | `conf` and `text` show the token's confidence and text (`row[10]`, `row[11]`), as the synchronous endpoint and the earlier service do | high (not executed) | Queries.SuccessViewMislabels | Queries.IntendedResultsShowText |
