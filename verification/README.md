# QAnything file ingestion and knowledge-base bookkeeping, in Dafny

This project models two parts of QAnything's document-ingestion back end and proves their properties.

**The ingestion worker** (`insert_files_server.py`). Each of W worker processes polls the shared `File` table in a loop. Each pass:
- computes the shard it serves this minute, `(worker_id + minute / W) % W`;
- selects the oldest waiting (`gray`), non-deleted file whose `id mod W` is that shard;
- claims it (`yellow`);
- parses it and inserts its chunks into the vector store, each stage under a deadline, writing a `Processing:N%` message to the file's row before the parse, after it and after the insert;
- records the outcome (`green`, or `red` with a message);
- on an exception, demotes the file it claimed from `yellow` to `red`;
- sleeps 0.1 s after a recorded outcome and 3 s otherwise.

**The bookkeeping of `KnowledgeBaseManager`** (`mysql_client.py`):
- the connection-pool counters kept around every statement;
- the batched statements (at most 100 values per `IN (...)` list);
- the paginated reads;
- the set difference of `check_kb_exist`;
- the date/status grouping of `get_total_status_by_date`;
- the status transitions;
- the chunk-id rebuild and numeric sort of `get_document_by_file_id`.

How the model is built:
- The MySQL tables are sequences of rows in storage order, held by one `Store.Database` object.
  - A `SELECT ... WHERE` is a filter over a table.
  - An `UPDATE ... WHERE` rewrites the selected rows in place.
  - A `DELETE ... WHERE` removes them.
- The database's own constraints are kept as the invariant `Database.Valid`: `id` is the primary key and `file_id` is unique.
- The worker's collaborators are not modelled; what each did is an input to the model:
  - file splitting: parsed page lengths, timeout, or error;
  - vector insertion: chunk count, timeout, or error;
  - the progress percentages drawn at random;
  - where an exception escapes the worker's store access.
- Vector-store deletions are recorded as an observable log.

Files:
- `util.dfy`: Option/Result, sums, decimal rendering, batches, filters, deletions by key, and walks that may raise.
- `store.dfy`: rows, the timestamp order, and the `Database` class with its UPDATE/DELETE primitives.
- `insert_worker.dfy`: the ingestion worker.
- `knowledge_base.dfy`: the `KnowledgeBaseManager`.

Paths in the table are relative to the repository root.

## Model

| member | source | states |
|---|---|---|
| InsertWorker.Shard | qanything_kernel/dependent_server/insert_files_serve/insert_files_server.py:149-150 | the dynamic shard of any worker at any minute lies in [0, W) |
| InsertWorker.WorkerForShard | qanything_kernel/dependent_server/insert_files_serve/insert_files_server.py:149-150 | for every shard s < W there is a worker below W that serves s at the given minute |
| InsertWorker.ShardInjective | qanything_kernel/dependent_server/insert_files_serve/insert_files_server.py:149-150 | two workers below W that serve the same shard at the same minute are the same worker |
| InsertWorker.ShardAssignmentIsBijective | qanything_kernel/dependent_server/insert_files_serve/insert_files_server.py:149-150 | at a fixed minute, distinct workers 0..W-1 serve distinct shards, and the shards served are exactly 0..W-1 |
| Store.TimestampLeqTotal | qanything_kernel/dependent_server/insert_files_serve/insert_files_server.py:158 | the VARCHAR order used by `ORDER BY timestamp` relates any two timestamps |
| Store.TimestampLeqTransitive | qanything_kernel/dependent_server/insert_files_serve/insert_files_server.py:158 | that order is transitive |
| InsertWorker.EligibleForOneWorker | qanything_kernel/dependent_server/insert_files_serve/insert_files_server.py:149-157 | in every minute, a gray, non-deleted file is selectable by some worker below W, and by only one |
| InsertWorker.OldestGray | qanything_kernel/dependent_server/insert_files_serve/insert_files_server.py:155-163 | no row is selected exactly when no row is gray, non-deleted and in the shard; a selected row is such a row |
| InsertWorker.OldestGrayIsOldest | qanything_kernel/dependent_server/insert_files_serve/insert_files_server.py:155-163 | the selected row's timestamp is at most that of every eligible row |
| InsertWorker.ProcessOutcome | qanything_kernel/dependent_server/insert_files_serve/insert_files_server.py:57-135 | the status is green or red; green iff the content length is in (0, MAX_CHARS] and the insert succeeded; content_length is -1 when parsing did not finish; chunks_number is 0 unless green; each failure's message is fixed (parse timeout, parse error, too large, empty, insert timeout, insert error); the vector-store delete for the file is issued iff the insert timed out |
| InsertWorker.MaxCharsIsAccepted | qanything_kernel/dependent_server/insert_files_serve/insert_files_server.py:79-87 | content of exactly MAX_CHARS characters is not rejected: it ends green iff the insert succeeded |
| InsertWorker.EmptyPagesAreRejected | qanything_kernel/dependent_server/insert_files_serve/insert_files_server.py:79-87 | documents that are all empty give red, content_length 0, chunks_number 0, the empty-content message and no delete |
| InsertWorker.Worker.ParseStage | qanything_kernel/dependent_server/insert_files_serve/insert_files_server.py:74-100 | content_length is the sum of the page lengths when the parse finished and -1 otherwise; the content is rejected exactly when it is not accepted (parsed, non-empty, at most MAX_CHARS), and each rejection carries its own message (parse timeout, parse error, too large, empty) |
| InsertWorker.Worker.InsertStage | qanything_kernel/dependent_server/insert_files_serve/insert_files_server.py:106-128 | chunks_number is the inserted chunk count, 0 when the insert failed; it fails exactly when the insert did not succeed, with the timeout or the error message; only a timeout issues the file's `delete_expr` (`file_id == "<id>"`), once |
| InsertWorker.Worker.UpdateFileMsg | qanything_kernel/connector/database/mysql/mysql_client.py:283-286 | `UPDATE File SET msg = %s WHERE file_id = %s` gives the file's row the message, keeps every other row and the table's constraints |
| InsertWorker.Worker.WriteProgress | qanything_kernel/dependent_server/insert_files_serve/insert_files_server.py:71-130 | writing the next progress message after the earlier ones leaves the table as writing the messages so far in one run: the file's row carries the latest |
| InsertWorker.ProgressMsgsFollowOutcome | qanything_kernel/dependent_server/insert_files_serve/insert_files_server.py:71-135 | the start message is always written; the after-parse message iff the content is accepted; the after-insert message iff the file ends green; the last one written names the last stage reached |
| InsertWorker.Worker.ProcessData | qanything_kernel/dependent_server/insert_files_serve/insert_files_server.py:57-135 | when it returns: the status, content length, chunk count and message of `ProcessOutcome`, the vector-store log grows by exactly the deletions it lists, and the file's row carries the progress messages of the stages reached, in order; when an exception escapes after its n-th progress message: it raises exactly then, the first min(n, stages reached) messages are written and no deletion is logged; the store's constraints hold either way |
| InsertWorker.VectorStore.DeleteExpr | qanything_kernel/dependent_server/insert_files_serve/insert_files_server.py:116-117 | `delete_expr` appends the filter expression to the store's deletion log and changes nothing else |
| InsertWorker.Worker.Claim | qanything_kernel/dependent_server/insert_files_serve/insert_files_server.py:170-176 | the row with the claimed id becomes yellow whatever its status was; every other row is unchanged |
| InsertWorker.Worker.Record | qanything_kernel/dependent_server/insert_files_serve/insert_files_server.py:192-195 | the row with the id gets the status, content length, chunk count and message; every other row is unchanged |
| InsertWorker.RecordFailureLeavesProgress | qanything_kernel/dependent_server/insert_files_serve/insert_files_server.py:186-195 | when only the recording update fails, the row's msg is the progress message of the last stage `process_data` reached, not the outcome's message |
| InsertWorker.RecoveryTurnsRed | qanything_kernel/dependent_server/insert_files_serve/insert_files_server.py:200-209 | after a raise during processing or recording the row is still yellow when the handler runs, and the handler's update gives the row `ClaimedRowAfter` with working recovery |
| InsertWorker.Worker.Recover | qanything_kernel/dependent_server/insert_files_serve/insert_files_server.py:200-209 | only the row with the id claimed in this pass, and only if it is yellow, becomes red; with no id claimed nothing changes |
| InsertWorker.ClaimedRowAfter | qanything_kernel/dependent_server/insert_files_serve/insert_files_server.py:165-209 | after a pass that selected a row, only its outcome fields differ; a failing claim leaves it as it was; a pass without exception leaves it green or red; otherwise it stays yellow exactly when recovery also failed, and it is never gray again; when processing raised or only the recording update failed, content_length and chunks_number are unchanged and msg is the last progress message written (the old msg if none was) |
| InsertWorker.Worker.ClaimAndProcess | qanything_kernel/dependent_server/insert_files_serve/insert_files_server.py:165-197 | raises exactly when a fault is injected after selection; only the selected row changes, to the state the first exception leaves it in, progress messages written before it included; the vector-store log grows only when `process_data` returned |
| InsertWorker.Worker.CheckAndProcess | qanything_kernel/dependent_server/insert_files_serve/insert_files_server.py:146-222 | when the select fails or finds nothing: no change, sleep 3; otherwise only the selected row changes, to `ClaimedRowAfter` (its outcome, or red or yellow with its last progress message); sleep is 0.1 exactly when no exception was raised; the table advances |
| InsertWorker.ClaimedRowAdvances | qanything_kernel/dependent_server/insert_files_serve/insert_files_server.py:146-222 | a pass that handles an eligible row advances the table: only gray rows change, only in their outcome fields, and with working recovery no new yellow row is left behind |
| InsertWorker.AdvancesTransitive | qanything_kernel/dependent_server/insert_files_serve/insert_files_server.py:146-222 | advancing is preserved across consecutive passes |
| InsertWorker.Worker.Run | qanything_kernel/dependent_server/insert_files_serve/insert_files_server.py:146-222 | any number of passes keep the store's constraints and advance the table; each pass chooses one sleep, 0.1 or 3, and 3 whenever the pass raised |
| KnowledgeBase.KnowledgeBaseManager.constructor | qanything_kernel/connector/database/mysql/mysql_client.py:31-33 | the pool starts with no connection in use and all of them free |
| KnowledgeBase.KnowledgeBaseManager.ExecuteQuery | qanything_kernel/connector/database/mysql/mysql_client.py:63-108 | the used/free counters are the same after the call as before and always add up to the pool size; without a connection, or on a MySQL error, the result is None; otherwise it is the fetched rows, the row count, or None, as the flags ask |
| KnowledgeBase.KnowledgeBaseManager.CheckKbExist | qanything_kernel/connector/database/mysql/mysql_client.py:315-325 | empty input gives the empty set; otherwise an id is returned iff it is in the input and is not a live knowledge base of the user |
| KnowledgeBase.ValidKbIdsAreLive | qanything_kernel/connector/database/mysql/mysql_client.py:319-323 | an id is among the valid ids the query returns iff it is listed and is a live knowledge base of the user |
| KnowledgeBase.KnowledgeBaseManager.IsDeletedFile | qanything_kernel/connector/database/mysql/mysql_client.py:552-558 | true iff the file's row exists and is marked deleted; a missing file is not deleted |
| KnowledgeBase.KnowledgeBaseManager.CheckFileExistByName | qanything_kernel/connector/database/mysql/mysql_client.py:355-379 | the result is the batches' results concatenated in order, and it holds exactly the rows the same query over all names at once would find |
| KnowledgeBase.FilesNamedByBatchMembership | qanything_kernel/connector/database/mysql/mysql_client.py:360-377 | querying batch by batch finds a row iff querying the concatenated batches at once finds it |
| Util.Batches | qanything_kernel/connector/database/mysql/mysql_client.py:360-361 | each batch is non-empty and holds at most 100 names, and the batches concatenate back to the input |
| KnowledgeBase.KnowledgeBaseManager.DeleteFaqs | qanything_kernel/connector/database/mysql/mysql_client.py:661-671 | after the batched deletes the table is the old one without the listed ids: a FAQ remains iff it was there and its id is not listed, the rest keep their order, and the sum of the batches' row counts, which the source logs, is the number of rows removed |
| KnowledgeBase.KnowledgeBaseManager.DeleteDocuments | qanything_kernel/connector/database/mysql/mysql_client.py:642-659 | exactly the documents whose doc_id matches `'<file_id>_%'` for a listed file are gone, and the logged total of the batches' row counts is the number removed |
| Util.WithoutTwice | qanything_kernel/connector/database/mysql/mysql_client.py:664-670 | deleting one batch of ids, then the next, leaves what deleting both batches at once leaves |
| Util.InWithout | qanything_kernel/connector/database/mysql/mysql_client.py:666-669 | after `DELETE ... WHERE id IN (ids)` a row remains iff it was there and its id is not listed |
| KnowledgeBase.KnowledgeBaseManager.DeleteIds | qanything_kernel/connector/database/mysql/mysql_client.py:650-658 | the inner batched delete removes exactly the listed doc ids and counts them |
| KnowledgeBase.DeletingFoundDocs | qanything_kernel/connector/database/mysql/mysql_client.py:645-652 | deleting the ids that the LIKE query found removes exactly the documents the LIKE matches |
| KnowledgeBase.KnowledgeBaseManager.UpdateFileStatus | qanything_kernel/connector/database/mysql/mysql_client.py:466-468 | the file's row takes the new status; every other row is unchanged |
| KnowledgeBase.KnowledgeBaseManager.FromStatusToStatus | qanything_kernel/connector/database/mysql/mysql_client.py:470-473 | exactly the listed files that are in the from-status move to the to-status; every other row is unchanged |
| KnowledgeBase.KnowledgeBaseManager.GetFiles | qanything_kernel/connector/database/mysql/mysql_client.py:475-509 | with a file id, the one query's rows; without one, the pages of 100 concatenated up to the first empty page equal every live file of the knowledge base, in order |
| KnowledgeBase.Page | qanything_kernel/connector/database/mysql/mysql_client.py:498-500 | `LIMIT/OFFSET` gives min(limit, rows left) rows, none past the end, and they are the result's rows from the offset on, in order |
| KnowledgeBase.KnowledgeBaseManager.GetChunkSizeAsWritten | qanything_kernel/connector/database/mysql/mysql_client.py:531-550 | the chunk sizes of the rows found slice by slice, up to the first slice that finds nothing |
| KnowledgeBase.ChunkSizeSkipsLaterSlices | qanything_kernel/connector/database/mysql/mysql_client.py:543-545 | a concrete table and id list for which a listed file's chunk size is missing from the as-written result |
| KnowledgeBase.KnowledgeBaseManager.ReadAllSlices | qanything_kernel/connector/database/mysql/mysql_client.py:536-547 | the rows gathered by querying every slice of 100 ids in turn are the walk over all slices |
| KnowledgeBase.KnowledgeBaseManager.GetChunkSize | qanything_kernel/connector/database/mysql/mysql_client.py:531-550 | with every slice queried, each listed file's chunk size is in the result, and each value in the result is the chunk size of a listed file |
| KnowledgeBase.RowsInSlicesMembership | qanything_kernel/connector/database/mysql/mysql_client.py:536-547 | a row is found by the slices from an offset iff its file id is listed at or after that offset |
| KnowledgeBase.ChunkSizesCoverListed | qanything_kernel/connector/database/mysql/mysql_client.py:531-550 | the slice walk over all ids returns exactly the chunk sizes of the listed files |
| KnowledgeBase.KnowledgeBaseManager.GetTotalStatusByDate | qanything_kernel/connector/database/mysql/mysql_client.py:511-529 | the nested dictionary the loop builds is the fold of the grouped rows |
| KnowledgeBase.Groups | qanything_kernel/connector/database/mysql/mysql_client.py:513-522 | the GROUP BY yields each (date, status) pair of the user's files exactly once, and no other pair |
| KnowledgeBase.StatusCounts | qanything_kernel/connector/database/mysql/mysql_client.py:513-522 | one row per (date, status) group, whose number counts the user's files with that date and status and is never zero |
| KnowledgeBase.StatusCountsTotal | qanything_kernel/connector/database/mysql/mysql_client.py:513-522 | the numbers add up to the number of the user's files, so each file is counted in exactly one group |
| KnowledgeBase.KnowledgeBaseManager.FoldByDate | qanything_kernel/connector/database/mysql/mysql_client.py:524-527 | the loop's `files_by_date[date][status] = number`, row by row, builds the grouping of all rows |
| KnowledgeBase.TotalStatusByDateCounts | qanything_kernel/connector/database/mysql/mysql_client.py:511-529 | the dates are exactly the dates of the user's files; a date has a status iff some file of the user has that date and status; the number is how many such files there are |
| KnowledgeBase.GroupByDateKeys | qanything_kernel/connector/database/mysql/mysql_client.py:524-529 | every date in the grouped rows, and only those, is a key |
| KnowledgeBase.GroupByDateEntries | qanything_kernel/connector/database/mysql/mysql_client.py:524-529 | a (date, status) entry exists iff some grouped row carries it |
| KnowledgeBase.GroupByDateLast | qanything_kernel/connector/database/mysql/mysql_client.py:524-529 | an entry holds the number of the last row carrying its date and status |
| KnowledgeBase.KnowledgeBaseManager.GetDocumentByFileId | qanything_kernel/connector/database/mysql/mysql_client.py:585-618 | the paged, tagged, keyed and sorted documents equal `DocumentsByFileId` of the table |
| KnowledgeBase.KnowledgeBaseManager.ReadDocumentPages | qanything_kernel/connector/database/mysql/mysql_client.py:593-611 | the paging loop over the file's documents gives the paged tagging of the matching documents |
| KnowledgeBase.ReadPages | qanything_kernel/connector/database/mysql/mysql_client.py:593-611 | the loop (fetch the page at the offset, stop at an empty one, tag it, raise at the first bad doc id, gather, move on) gives the paged walk from offset 0 |
| KnowledgeBase.PagedConcatIsConcat | qanything_kernel/connector/database/mysql/mysql_client.py:593-611 | for a positive batch size, walking page by page equals walking the whole sequence from the offset, the first error included |
| KnowledgeBase.TaggedPagesIsTagged | qanything_kernel/connector/database/mysql/mysql_client.py:593-611 | for a positive batch size, paging then tagging equals tagging every matching document, IndexError included |
| Util.TryConcatAppend | qanything_kernel/connector/database/mysql/mysql_client.py:601-607 | walking two runs one after the other is walking each and concatenating; the first error raised wins |
| Util.TryConcatSingles | qanything_kernel/connector/database/mysql/mysql_client.py:601 | a comprehension that yields one value per element raises iff some element raises, with that element's error, and otherwise yields the values position by position |
| KnowledgeBase.TaggedContents | qanything_kernel/connector/database/mysql/mysql_client.py:601-604 | tagging fails, with IndexError, iff some doc_id has no `_`; otherwise each document gets its second `_` field and its json with chunk_id `'<file_id>_<field>'` |
| KnowledgeBase.SecondField | qanything_kernel/connector/database/mysql/mysql_client.py:601 | `split('_')[1]` is absent iff the string has no `_`; otherwise the string is head `_` field tail, with no `_` in head or field and tail empty or starting with `_` |
| KnowledgeBase.SecondFieldOfSplit | qanything_kernel/connector/database/mysql/mysql_client.py:601 | any such split of the string yields exactly its field, so the split determines the result |
| KnowledgeBase.WithChunkId | qanything_kernel/connector/database/mysql/mysql_client.py:604 | the kwargs get chunk_id set to the given value, and every other key is unchanged |
| KnowledgeBase.ChunkIdRoundTrip | qanything_kernel/connector/database/mysql/mysql_client.py:596-614 | a chunk stored as `'<file_id>_<n>'` (file id without `_`) is matched by the LIKE, its second field is n in decimal, and `int` reads it back as n |
| KnowledgeBase.ParseInt | qanything_kernel/connector/database/mysql/mysql_client.py:614 | `int(x)` succeeds iff x is a non-empty string of ASCII decimal digits |
| KnowledgeBase.DocumentsByFileIdErrors | qanything_kernel/connector/database/mysql/mysql_client.py:601-614 | the result is IndexError iff some matching doc id has no `_`, and ValueError iff every one has a `_` but some second field is not a decimal number |
| KnowledgeBase.InsertByKeyPermutes | qanything_kernel/connector/database/mysql/mysql_client.py:614 | inserting an entry adds it once and keeps every other entry |
| KnowledgeBase.InsertByKeySorted | qanything_kernel/connector/database/mysql/mysql_client.py:614 | inserting into a sorted run keeps it sorted, and the new head is the smaller of the entry and the old head |
| KnowledgeBase.SortByKey | qanything_kernel/connector/database/mysql/mysql_client.py:614 | the result is sorted by key and is a permutation of the input |
| KnowledgeBase.SortByKeyIsStable | qanything_kernel/connector/database/mysql/mysql_client.py:614 | entries with equal keys keep their relative order, as in Python's stable `sort` |
| KnowledgeBase.DocumentsByFileIdContents | qanything_kernel/connector/database/mysql/mysql_client.py:599-617 | when every suffix is numeric, the result is the json of the sorted entries; the entries are sorted by suffix value and are a permutation (as a multiset) of one rebuilt entry per matching document, in match order, so each matching document appears exactly once, its json carrying chunk_id `'<file_id>_<suffix>'` |
| KnowledgeBase.DocumentsByFileIdNone | qanything_kernel/connector/database/mysql/mysql_client.py:611-618 | None is returned iff no document matches (or the batch size is 0); otherwise there is one result per matching document |
| Store.Database.UpdateFiles | qanything_kernel/connector/database/mysql/mysql_client.py:466-473 | an UPDATE rewrites exactly the rows its WHERE selects, keeps every other row, and keeps the id and file_id constraints |
| Store.Database.DeleteFaqs | qanything_kernel/connector/database/mysql/mysql_client.py:668-669 | `DELETE FROM Faqs WHERE faq_id IN (...)` leaves the table without the listed ids, and the row count is the number removed |
| Store.Database.DeleteDocuments | qanything_kernel/connector/database/mysql/mysql_client.py:655-657 | `DELETE FROM Documents WHERE doc_id IN (...)` leaves the table without the listed ids, and the row count is the number removed |
| Store.WithNoMsg | qanything_kernel/connector/database/mysql/mysql_client.py:283-286 | writing no message leaves the table unchanged |
| Store.WithMsgStep | qanything_kernel/connector/database/mysql/mysql_client.py:283-286 | `update_file_msg` overwrites: writing message j after messages 0..j-1 equals writing messages 0..j |
| Store.WithMsgOneRow | qanything_kernel/connector/database/mysql/mysql_client.py:283-286 | under the unique file_id, a run of messages changes only that file's row, whose msg becomes the last one (none: unchanged) |
| Store.UpdateByIdTouchesOneRow | qanything_kernel/dependent_server/insert_files_serve/insert_files_server.py:173 | under the primary key, an update by a row's id changes that row only |

## Left out

- Real connections, pools and schema set-up (`create_tables_`, index and ALTER handling). The tables are values.
- The statement's effect inside `execute_query_` (commit, rollback, `user_dict`). The query helpers read and write the tables directly rather than through `ExecuteQuery`.
- A connection or statement failure inside the query helpers: `execute_query_` would return None and the helper would break or raise a `TypeError`. Only `ExecuteQuery` models failures.
- SQL text building and quoting: the model does not capture injection through the values spliced into `check_kb_exist`, `get_chunk_size` or `delete_documents`.
- Column projections: the reads return whole rows.
- MySQL's default case-insensitive collation: string comparisons in the model are exact.
- LIKE wildcards: `_` and `%` inside a file id are taken literally. `DocOfFile` also matches the chunks of a longer file id that starts with the given one, as the LIKE does; the model assumes, without proving it, that no file id is a prefix of another, since file ids are generated outside the modelled files.
- Pagination order: `LIMIT/OFFSET` without `ORDER BY` is taken to follow storage order, stable between pages.
- KnowledgeBase.ParseInt: accepts only plain ASCII digit strings. Python's `int()` also accepts a sign, surrounding whitespace, `_` separators and non-ASCII Unicode decimal digits (Arabic-Indic, Devanagari, fullwidth and others: `int('٣') == 3`).
- JSON: `json.loads`/`dumps` are left out. A document's json is its `kwargs` map; a missing `kwargs` key (a KeyError) is not modelled. The timing record of a successful file is an input string.
- KnowledgeBase.KnowledgeBaseManager.GetDocumentByFileId: `batch_size` is a parameter, where the source's default is 100.
- KnowledgeBase.KnowledgeBaseManager.CheckKbExist: returns a set. The source returns a list built from a set, in unspecified order.
- InsertWorker.Worker.ProcessData: does not model the knowledge base's latest-insert time, the upload-info update, the `event.set` notification, or the timing record. The percentages `random.randint` draws for the progress messages are an input (`Progress`), and so is the point at which an exception escapes (`raisesAfter`). A progress write whose MySQL error `execute_query_` swallows is taken to succeed. The message of the too-large branch reads ">=" although the test is `>`; the model keeps the text.
- InsertWorker.Worker.ProcessData: a `delete_expr` that itself raises inside the timeout branch is not modelled.
- The pipeline stages (`split_file_to_docs`, `insert_documents`) and their deadlines are not modelled; their outcomes are inputs.
- MAX_CHARS comes from the configuration, which is not part of this model; it is a parameter.
- The clock is not modelled: the minute is an input of each pass. `worker_id` is a constructor argument, not derived from the process name.
- InsertWorker.Worker.Recover: writes no message; recovery changes only the status (insert_files_server.py:208).
- InsertWorker.Worker.Run: models a finite prefix of the endless loop, one pass per given iteration. The sleeps are returned, not slept.
- Concurrency: several workers, their claim races, and asyncio scheduling are not modelled. The claim is unconditional, so exclusive ownership is neither modelled nor claimed.
- Logging and tracebacks.
- InsertWorker.OldestGray: `ORDER BY timestamp ASC LIMIT 1` leaves open which of several eligible rows with the same timestamp is returned. Timestamps have minute resolution, so ties are ordinary. The model always takes the first such row in storage order, so InsertWorker.Worker.CheckAndProcess and InsertWorker.Worker.Run pin that one choice. OldestGrayIsOldest states what any choice satisfies: the row is eligible and no eligible row is older.
- InsertWorker.Worker.Record: the width of `File.msg` (VARCHAR(255)) is not modelled. A long file name can make the empty-content or too-large message longer than 255 characters. MySQL then either rejects the UPDATE in strict mode, which the model can express only as an injected RecordFails, or truncates the message. The model records the full message.
- KnowledgeBase.KnowledgeBaseManager.DeleteFaqs, KnowledgeBase.KnowledgeBaseManager.DeleteDocuments: return the total row count, which the source only writes to the log; the Python methods return None.

## Findings

| source | as written | input that shows it | evidently intended | confidence | as-written member | corrected member |
|---|---|---|---|---|---|---|
| qanything_kernel/connector/database/mysql/mysql_client.py:543-545 | `get_chunk_size` stops walking the ids at the first slice of 100 that finds no file, so later slices are never queried | a table holding one file `b` with chunk_size 800, and the ids `a` (100 times) then `b`: the result is empty although `b` is listed | query every slice; the walk already ends at the first empty slice of ids (lines 538-539) | medium, not executed | KnowledgeBase.ChunkSizeSkipsLaterSlices | KnowledgeBase.ChunkSizesCoverListed |
