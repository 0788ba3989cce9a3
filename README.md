# AOL-IA tools: a Dafny model of the downloader and the CARS generators

This project models the core of the AOL-IA tooling in Dafny and proves properties of the model. The tooling has three parts:

- **The downloader** (downloader.py) pulls archived pages from archive.org. A streaming HTML extractor pulls out each page's title and text. A worker fetches one document and decides whether it succeeded. A driver keeps done, todo, in-progress and not-found id sets, and backs off after a run of failures.
- **The CARS generator** (generate_cars.py) groups query logs into sessions and picks candidate documents from a ranked run around the clicked ones. It writes the sessions that have at least two usable queries.
- **The title backfill** (replace_cars_titles.py) gives every click of a CARS record the title that its URL looks up to.

Modules, one per component:

- `Extractor`: `SaxExtractor`. Its callbacks are a `Step` function on a `Sax` state value. The `SaxExtractor` class updates that state in place, one callback at a time.
- `Worker`: the worker's decisions.
  - the archive-URL rewrite to https;
  - the content-type check;
  - the soft "502 Bad Gateway" rule and its allow-list;
  - the table that shortens exception texts;
  - the shard name;
  - how the driver classifies a reply: success, terminal (404/403) or retryable.
- `Queue`: the driver's bookkeeping in `main`.
  - bootstrap from the completion log and the manifest;
  - dispatch;
  - handling one reply;
  - the backoff that puts all in-progress work back on todo;
  - the main loop.
- `Ordering`: Python's `<` on strings, and `sorted` of a set.
- `RunWindow`: `get_dids_from_run`. This covers the two dictionaries, the window placement, the union over clicks and the final sort.
- `Sessions`: `Sessionizer`. Similarity is abstracted to which constant `get_sim_repr` returns, or a caller-given verdict for a cosine.
- `Records`:
  - the session filter;
  - choosing the split by the time of the session's first query;
  - building the queries and their labelled candidates;
  - the filter that keeps queries with both labels;
  - the rule that a session is written only when more than one query remains.
- `Titles`:
  - the URL-to-title table, where the last document for a URL wins;
  - the lookup with its trailing-slash fallback;
  - the in-place rewrite of click titles.
- `Strings`: the Python string operations the core uses. These are `in`, `replace`, `lower`, `strip`, `rstrip`, `split`, `join` and `str(int)`, with lemmas that relate them.
- `Wrappers`: `Option` and `Result`.
- `Scenario`: one complete run over a two-line manifest with an empty completion log. Document A is an HTML page; document B gets a 404. Whatever order the pool hands out the two tasks, both end up done, only B is recorded as not found, the queue drains, and the only record appended is A's.

Three points of the code that the model keeps as written:

- **Title text inside an ignore tag.** Title text inside an open ignore tag is dropped too: all character data is dropped while the ignore stack is non-empty (downloader.py:55). `Extractor.DataRouting` states it.
- **When the failure count resets.** The failure count is reset at the start of each round of `while todo:` (downloader.py:185), and a backoff ends the round. The model resets it in `Queue.Downloader.Restart`, at the start of `Drive` and after each backoff.
- **The content-type error text.** A page whose content type does not contain `html` fails with `content-type <value>`, where the value is `None` when there is no header (downloader.py:99-100). `Worker.Attempt` copies it.

The driver decides that a failure is terminal by a substring test on the whole failure message (downloader.py:214). That message quotes the archive URL. So a URL that itself contains "404 not found" makes every failure of that document terminal. `Worker.MessageTerminal` states this exactly.

## Model

| member | source | states |
|---|---|---|
| Extractor.PopUntilFound | downloader.py:69-70 | with an open `tag`, the pop loop removes exactly the entries from its most recent occurrence upward |
| Extractor.PopUntilMissing | downloader.py:69-70 | with no open `tag`, the pop loop empties the ignore stack |
| Extractor.DataRouting | downloader.py:54-59 | data reaches the title iff no ignore tag is open and the title is open, and the text iff no ignore tag is open and the title is closed; it is appended at the end and nothing else changes |
| Extractor.StartSemantics | downloader.py:60-65 | a start tag pushes its lower-cased name iff that name is one of the five ignore tags; `<title>` in any case opens the title; the buffers do not change |
| Extractor.EndSemantics | downloader.py:66-72 | an ignore end tag pops down to and including its most recent match, or everything when there is none; other end tags leave the stack alone; `</title>` closes the title |
| Extractor.CaseInsensitiveTags | downloader.py:61-62 | start and end tags that differ only in case have the same effect |
| Extractor.RunConcat | downloader.py:54-80 | the callbacks act one at a time: running a stream of callbacks in two parts is the same as running it whole |
| Extractor.DataCoalesce | downloader.py:54-59 | two data callbacks in a row have the effect of one carrying both pieces, so it does not matter whether the parser delivers a run of text in one `data` callback or in several |
| Extractor.BuffersOnlyGrow | downloader.py:54-59 | what has been extracted so far is always a prefix of the final title and text |
| Extractor.DataInOrder | downloader.py:54-59 | after any stream, further data is appended to whichever buffer the state reached accepts |
| Extractor.SuppressedInsideIgnoreTag | downloader.py:55 | while an ignore tag is open and no ignore end tag arrives, neither buffer changes and the open entries stay on the stack |
| Extractor.NestedIgnoreTags | downloader.py:42 | `<style><script>x</script></style>` drops `x` and leaves the extractor exactly as it was |
| Extractor.SaxExtractor.constructor | downloader.py:43-47 | a new extractor has empty buffers, a closed title and an empty ignore stack |
| Extractor.SaxExtractor.OnDataEvent | downloader.py:54-59 | the in-place `data` callback moves the object to the state `Step` gives for that data |
| Extractor.SaxExtractor.OnStartEvent | downloader.py:60-65 | the in-place `start` callback moves the object to the state `Step` gives |
| Extractor.SaxExtractor.OnEndEvent | downloader.py:66-72 | the in-place `end` callback, with its pop loop, moves the object to the state `Step` gives |
| Extractor.SaxExtractor.Feed | downloader.py:54-80 | each callback, including the no-op comment, doctype, pi and close callbacks, moves the object to the state `Step` gives |
| Extractor.Parse | downloader.py:25-38 | the title and text read back after feeding every callback are those of running the whole stream from the initial state |
| Worker.RewriteRemovesInsecure | downloader.py:95 | after the rewrite, the URL contains no `http://web.archive.org/web` |
| Worker.RewriteIdempotent | downloader.py:95 | rewriting twice is the same as rewriting once |
| Worker.RewriteKeepsOtherUrls | downloader.py:95 | a URL without the insecure prefix is unchanged |
| Worker.RewriteInsecureUrl | downloader.py:95 | an insecure archive URL becomes the secure prefix followed by the rewritten remainder |
| Worker.NormalizeErrorTable | downloader.py:126-134 | the first of the 404/403 client-error texts found decides the short reason; a text matching no entry is kept verbatim |
| Worker.NormalizedTerminal | downloader.py:126-134 | the shortened reason is terminal iff the exception named a 404 or 403 client error, or matched no entry and already held a short reason |
| Worker.MessageTerminal | downloader.py:135 | the failure message is terminal iff the URL it quotes or the shortened reason is |
| Worker.FailureClassification | downloader.py:125-135 | when neither the URL nor the raw text already holds a short reason, a failure is terminal iff the exception named a 404 or 403 client error; a failure is never read as success |
| Worker.ShardNameByFirstChar | downloader.py:111 | two documents share a shard file iff their ids have the same first character |
| Worker.ReplyShape | downloader.py:90-135 | the reply names the task's document; it has no error iff a record was appended; that record is this document's, in its shard, under the rewritten URL, which holds no insecure prefix |
| Worker.SuccessPath | downloader.py:96-124 | the reply has no error iff the fetch gave a response whose content type contains `html`, the page is not a soft gateway error, and the id is non-empty |
| Worker.GatewayPageRetried | downloader.py:106-110 | a page titled "502 Bad Gateway" fails with the gateway message unless the id is one of the three allow-listed ids and the text is exactly "502 Bad Gateway nginx" |
| Queue.ParseManifest | downloader.py:173-175 | the manifest parses iff every line has exactly three tab-separated fields, and then entry `i` is line `i` |
| Queue.ParseManifestLineRoundTrip | downloader.py:174 | a line written from an entry whose fields hold no tab parses back to that entry |
| Queue.ParseManifestRoundTrip | downloader.py:173-175 | a manifest written from such entries, one line each, parses back to exactly those entries |
| Queue.Prepare | downloader.py:165-177 | from the raw manifest lines: a line that does not unpack into three fields raises, and only then; otherwise the driver starts from the logged ids as done and the parsed manifest's other ids as todo, with the queue invariant holding |
| Queue.LoadDoneLog | downloader.py:168-171 | the done set is exactly the stripped lines of the completion log |
| Queue.AddAll | downloader.py:170-171 | the `done_ids.add` loop ends with the set of exactly the ids it was given |
| Queue.LoadManifest | downloader.py:172-177 | the URL table's keys are exactly the manifest's ids; the last line for an id gives its URLs; todo is the manifest ids that are not done |
| Queue.LogReadsBack | downloader.py:168-171 | when no logged id has whitespace at either end, stripping each line `id\n` written at lines 210 and 215 gives the ids back in order, and the done set read from those lines is exactly the logged ids |
| Queue.RestartRequeuesOutstanding | downloader.py:168-177 | under the queue invariant, and when no logged id has whitespace at either end, the done set that a restart reads from the written log lines is exactly the logged ids, and the manifest ids outside it are exactly the todo and in-progress ids, so a restart requeues what was outstanding |
| Queue.DrainedMeansComplete | downloader.py:184-194 | when nothing is todo or in progress, every manifest id is done |
| Queue.Downloader.Bootstrap | downloader.py:157-177 | the driver starts from the logged ids as done and every other manifest id as todo, with nothing in progress or not found, and the queue invariant holds |
| Queue.Downloader.Pop | downloader.py:195-198 | exactly one id moves from todo to in progress, and its task carries that id's URLs |
| Queue.Downloader.HandleReply | downloader.py:208-231 | a success or 404/403 marks the id done and logs it; a 404/403 also records it as not found; both reset the count; any other error requeues the id and counts one more failure, and at the threshold everything in progress is requeued; the invariant holds throughout |
| Queue.Downloader.Backoff | downloader.py:226-227 | all in-progress ids join todo and in-progress becomes empty |
| Queue.Downloader.Restart | downloader.py:185 | each round of `while todo:` starts with zero failures in a row |
| Queue.Downloader.Drive | downloader.py:184-249 | the loop keeps the invariant, never loses a done or not-found id, and finishes exactly when todo and in-progress are both empty; then every manifest id is done |
| Queue.Downloader.HandleReplyAsWritten | downloader.py:201-231 | as written, for a round started with `--parallel` processes: the reply raises iff there is one process (so no pool is bound) and it is the retryable failure that reaches the threshold; that reply requeues the id and counts the failure before raising, leaving the id both todo and in progress, so the queue invariant is broken; every other reply keeps the invariant and reaches exactly the per-outcome state `HandleReply` reaches |
| Queue.AsWrittenBreaksInvariant | downloader.py:222-227 | requeuing an in-progress id without the backoff's `todo.update(in_progress)` and `in_progress.clear()` breaks the queue invariant, which the backoff then restores without changing todo |
| Ordering.LessIrreflexive | generate_cars.py:186 | no string is below itself |
| Ordering.LessTransitive | generate_cars.py:186 | string order is transitive |
| Ordering.LessTotal | generate_cars.py:186 | any two different strings are ordered one way or the other |
| Ordering.SortSet | generate_cars.py:186 | `sorted` of a set is strictly increasing and holds exactly the set's elements, each once |
| Ordering.IncreasingUnique | generate_cars.py:186 | two strictly increasing lists with the same elements are equal, so `sorted` of a set has only one possible result |
| RunWindow.ByDidLastWins | generate_cars.py:117-118 | the rank kept for a document is that of its last run line |
| RunWindow.ByRankLastWins | generate_cars.py:167 | when documents share a rank, the one inserted last is kept for it |
| RunWindow.ByRankInverse | generate_cars.py:167 | looking up a rank's document and then that document's rank gives back the rank |
| RunWindow.ByRankOfUnique | generate_cars.py:167 | with unique ranks, every document of the run is found again at its rank |
| RunWindow.Window | generate_cars.py:172-182 | for context at least 1, all three shifting loops end; the window keeps the clicked rank, both ends are ranks of the run, it spans at most `context` ranks, and its bounds are those `WindowOf` gives from first and last ranks of the run |
| RunWindow.FirstFromIsFirst | generate_cars.py:175-177 | a shift that moves the start up (here and at lines 181-182) stops at the first rank of the run at or after where it began |
| RunWindow.LastUpToIsLast | generate_cars.py:178-180 | the shift that moves the stop down stops just after the last rank of the run at or before where it began |
| RunWindow.InWindowMembers | generate_cars.py:183-185 | a document is collected from a window iff it sits at one of the window's ranks |
| RunWindow.AddWindow | generate_cars.py:183-185 | the range loop adds exactly the window's documents, at most one per rank |
| RunWindow.AddClick | generate_cars.py:170-185 | one clicked document found in the run adds exactly the documents of its window, at most `context` of them, each within `context - 1` ranks of a click; with unique ranks the click itself is added |
| RunWindow.CoveredStep | generate_cars.py:168-185 | adding one more click's window keeps the targets equal to the union of the windows of the clicks handled so far |
| RunWindow.CollectTargets | generate_cars.py:168-185 | the collected documents are exactly the union of the windows of the clicked documents found in the run; all are in the run and near a click; there are at most `context` per clicked document found; with unique ranks every such click is collected |
| RunWindow.GetDidsFromRun | generate_cars.py:166-186 | the result is sorted without duplicates and holds exactly the documents in the window of some clicked document found in the run; each is within `context - 1` ranks of a click; its length is at most `context` per click found; with unique ranks it holds every click found in the run |
| Sessions.SessionIdInjective | generate_cars.py:37 | `prefix_k` ids are equal iff both the prefix and the count are |
| Sessions.RepeatedQueryReuses | generate_cars.py:50-51 | for a threshold below 1, the same user repeating a query stays in the session |
| Sessions.NewUserNeverReuses | generate_cars.py:48-49 | for a threshold of 0 or more, a change of user always starts a new session |
| Sessions.CosineNeedsBothVectors | generate_cars.py:46-58 | the cosine is used iff the user is the same, the query differs, and both it and the previous query have vectors |
| Sessions.Sessionizer.constructor | generate_cars.py:21-30 | a new sessionizer has no previous query and no sessions issued |
| Sessions.Sessionizer.NextSessionId | generate_cars.py:32-44 | above the threshold, the previous session id is reused; otherwise the user's next `prefix_k` is issued, which was never issued before, and the user's count goes up by one; the previous-query fields are updated |
| Records.FilterConcat | generate_cars.py:160 | the keep-filter works piecewise, so it preserves order |
| Records.FilterAtLeastTwo | generate_cars.py:160-162 | at least two items survive the filter iff two positions satisfy the condition |
| Records.KeepSessionIff | generate_cars.py:107 | a session is kept iff two of its logs have different query ids |
| Records.FilterSessions | generate_cars.py:107 | the filtered sessions are exactly the kept ones, with their logs unchanged |
| Records.SelectSplit | generate_cars.py:124-128 | there is no split iff no split's range holds the time; otherwise it is the first split whose range holds it |
| Records.CandidatesOf | generate_cars.py:148-158 | the candidates are exactly the selected documents found in the store, each labelled by whether it was clicked, with empty content when titles only |
| Records.KeptQueryIff | generate_cars.py:160 | a built query survives iff its selected documents found in the store include a clicked one and an unclicked one |
| Records.Finish | generate_cars.py:160-163 | a written record holds the session id and the surviving queries in order |
| Records.FinishIff | generate_cars.py:160-163 | a record is written iff two of the built queries have both labels |
| Records.QueryForLog | generate_cars.py:135-147 | the query for a log is built from documents selected from that query's run, which is empty when the run has no line for it |
| Records.BuildQueries | generate_cars.py:133-158 | there is one query per log, query `k` numbered `k` and built from log `k` |
| Records.SelectionUnique | generate_cars.py:135-147 | the documents selected for a log are determined by the run, the clicks and the context |
| Records.BuiltFromUnique | generate_cars.py:133-158 | the queries built for a session are determined by its logs, the runs, the document store and the context |
| Records.BuildRecord | generate_cars.py:122-163 | the split is the first one holding the first log's time; with none, nothing is written; otherwise the record is the filter of one query per log, each built from exactly the documents `get_dids_from_run` selects (so the record is determined by the inputs); a written record carries the session id and more than one query, each with both a clicked and an unclicked candidate |
| Titles.LoadTitles | replace_cars_titles.py:12-14 | every document URL is a key, and nothing else is; when documents share a URL, the last one's title is kept |
| Titles.ExactMatchWins | replace_cars_titles.py:22 | a known URL gets its own title |
| Titles.TrailingSlashFallback | replace_cars_titles.py:20-22 | an unknown URL that differs from a known one only by trailing slashes gets the known one's title |
| Titles.RStripSlashes | replace_cars_titles.py:22 | stripping the trailing slashes gives back the URL without them |
| Titles.NoMatchIsEmpty | replace_cars_titles.py:21-22 | a URL unknown with and without its trailing slashes gets the empty title |
| Titles.BackfilledShape | replace_cars_titles.py:18-23 | every click gets the title its URL looks up to, and nothing else changes: the same queries and clicks, in order, with the same URLs and other fields |
| Titles.BackfilledIdempotent | replace_cars_titles.py:18-23 | backfilling twice is the same as backfilling once |
| Titles.CarsData.constructor | replace_cars_titles.py:17 | the object holds the parsed record |
| Titles.CarsData.Backfill | replace_cars_titles.py:18-23 | the nested loops that set titles in place turn the object into the backfilled record |
| Titles.RewriteLines | replace_cars_titles.py:15-24 | one output record per input line, in order, each the backfilled input |
| Strings.StripTrimmed | downloader.py:171 | `strip` leaves a string with no whitespace at either end unchanged |
| Strings.StripLine | downloader.py:171 | for an id with no whitespace at either end, `strip` of the log line `id\n` written at line 210 gives back the id |
| Strings.SplitJoin | downloader.py:174 | splitting tab-joined fields that hold no tab gives the fields back |
| Strings.WordsJoin | generate_cars.py:144 | `split()` of words joined by single spaces gives the words back |
| Scenario.ReplyForA | downloader.py:95-124 | an HTML page for A gives no error and appends A's record to `A.jsonl.lz4` |
| Scenario.ReplyForB | downloader.py:125-135 | a 404 for B gives a failure that the driver reads as terminal, with nothing appended |
| Scenario.TwoDocumentRun | downloader.py:157-231 | in either dispatch order, A and B end up done, only B is not found, the queue drains, and of the two replies the driver handles, only A's appended a record |

## Left out

- Network access, HTTP status checks, `chardet` decoding, lz4 compression, JSON encoding and `fcntl` locking. The fetch result is a `Worker.Fetch` input, and an append is a `Worker.Append` value.
- lxml's HTML parser. It is replaced by the sequence of callbacks it makes on the extractor.
- NLTK's `word_tokenize`. It is a function-typed parameter.
- The worker pool and its concurrency, `time.sleep`, the progress bar and its rate estimates, and `KeyboardInterrupt`.
- Which in-flight id replies next. `Queue.Downloader.Drive` takes it as a nondeterministic choice.
- The `_done` marker file. It is only `Drive`'s `finished` result.
- The lock failure that exits the program.
- Argument parsing and the default paths.
- Python's `str.lower`, `str.strip` and `str.split()`. They are modelled on ASCII letters and ASCII whitespace only.
- GloVe vectors and the floating-point cosine. `Sessions.GetSim` says which constant similarity applies. For a cosine, the caller's `similar` flag says whether it is above the threshold.
- `prev_user_id`. It is assigned but never read.
- From generate_cars.py, the following are not modelled:
  - parsing of `--splits`, where a later split with the same name overwrites an earlier one;
  - reading the gzip run file;
  - grouping logs by user and sorting them by time;
  - iterating over sessions in sorted order;
  - the dataset and docs-store access;
  - the `args.run` else branch, which is unreachable because `--run` is required;
  - JSON output and its key order;
  - `datetime` values. Query times and split bounds are whole numbers in the model, compared the same way.

  Sessions, splits, runs and documents are inputs.
- Reading the run file into `run_by_did` is not modelled. The dictionary is an input, given as its entries in insertion order with distinct document ids. A repeated run line would change a document's rank but keep its first insertion position; `RunWindow.ByDidLastWins` states the last-wins rule for entry sequences in general.
- The JSON output of replace_cars_titles.py. A click that had no `title` key gets one as its last key; the model's clicks always have a title field, so key order is not modelled.
- A CARS click without a `url` field. The source raises on one; the model's clicks always have a URL.
- The completion log on restart is modelled as its stripped lines. The file's append mode and buffering are left out.
- RunWindow.GetDidsFromRun: requires a context of at least 1. With a context of 0 or less, the source's second shifting loop can run forever.
- RunWindow.CollectTargets: the same restriction to a context of at least 1.
- Queue.RestartRequeuesOutstanding: assumes no logged id has whitespace at either end. An id with leading or trailing whitespace reads back stripped, so it is not in the done set; it is fetched again and appended to the log again on the next run.
- Queue.Downloader.Drive: runs for at most `fuel` events. When `finished` is false, the run was cut short, not stuck.
- Worker.FailureClassification: assumes neither the URL nor the raw exception text already holds "404 not found" or "403 forbidden". `Worker.MessageTerminal` and `Worker.NormalizedTerminal` state the general case.
- Records.BuildRecord: requires a non-empty session (sessions that pass the filter have at least two logs) and split contexts of at least 1, as `get_dids_from_run` needs.
- Scenario.Work: states how the driver classifies each of the two replies and what was appended, but not the whole reply value. `Scenario.ReplyForA` and `Scenario.ReplyForB` give it.

## Findings

| source | as written | input that shows it | evidently intended | confidence | as-written member | corrected member |
|---|---|---|---|---|---|---|
| downloader.py:225 | with `--parallel 1`, no `pool` is ever bound (lines 201-204), so reaching the backoff threshold makes `pool.terminate()` raise and ends the download | `--parallel 1` with `--backoff_threshold` retryable failures in a row | requeue everything in progress and back off, as on the pool path | not executed | Queue.Downloader.HandleReplyAsWritten | Queue.Downloader.HandleReply |
