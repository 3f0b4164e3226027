/** The bookkeeping of `KnowledgeBaseManager`: the connection-pool counters
    kept around every statement, and the read and write helpers that split
    their input into batches, walk a result in pages or reshape it. The tables
    are those of the shared `Database`; each query is a filter over them. */
module KnowledgeBase {
  import opened Util
  import opened Store

  /** Most values one `IN (...)` list carries in the batched statements. */
  const BatchSize: nat := 100
  /** The `LIMIT` of the paginated file queries. */
  const PageSize: nat := 100

  /** What running a statement on a pooled connection produced: the fetched
      rows and the cursor's row count, or a MySQL error. */
  datatype Execution<R> = Executed(rows: seq<R>, rowCount: nat) | Failed(errno: int)

  /** What `execute_query_` hands back: `None`, `fetchall()` or `rowcount`. */
  datatype QueryResult<R> = NoResult | Rows(rows: seq<R>) | RowCount(count: nat)

  // ---------------------------------------------------------------------
  // Queries as filters over table values
  // ---------------------------------------------------------------------

  /** `kb_id IN (SELECT kb_id FROM KnowledgeBase WHERE user_id = ...)`:
      the knowledge base is recorded for the user, deleted or not. */
  predicate OwnedBy(kbs: seq<KbRow>, kbId: string, userId: string)
  {
    exists k :: 0 <= k < |kbs| && kbs[k].kbId == kbId && kbs[k].userId == userId
  }

  /** A knowledge base of the user that is not deleted. */
  predicate LiveKbOf(kbs: seq<KbRow>, kbId: string, userId: string)
  {
    exists k :: 0 <= k < |kbs| && kbs[k].kbId == kbId && !kbs[k].deleted && kbs[k].userId == userId
  }

  /** `SELECT kb_id FROM KnowledgeBase WHERE kb_id IN (...) AND deleted = 0
      AND user_id = ...`, as a set. */
  function ValidKbIds(kbs: seq<KbRow>, userId: string, kbIds: seq<string>): set<string>
  {
    var valid := Filter(kbs, (kb: KbRow) => kb.kbId in kbIds && !kb.deleted && kb.userId == userId);
    set k | 0 <= k < |valid| :: valid[k].kbId
  }

  /** The query finds exactly the listed ids that are live knowledge bases of the user. */
  lemma ValidKbIdsAreLive(kbs: seq<KbRow>, userId: string, kbIds: seq<string>)
    ensures forall id :: id in ValidKbIds(kbs, userId, kbIds) <==> id in kbIds && LiveKbOf(kbs, id, userId)
  {
    var valid := Filter(kbs, (kb: KbRow) => kb.kbId in kbIds && !kb.deleted && kb.userId == userId);
    var validIds := ValidKbIds(kbs, userId, kbIds);
    forall id | id in validIds
      ensures id in kbIds && LiveKbOf(kbs, id, userId)
    {
      var k :| 0 <= k < |valid| && valid[k].kbId == id;
      var j :| 0 <= j < |kbs| && kbs[j] == valid[k];
    }
    forall id | id in kbIds && LiveKbOf(kbs, id, userId)
      ensures id in validIds
    {
      var j :| 0 <= j < |kbs| && kbs[j].kbId == id && !kbs[j].deleted && kbs[j].userId == userId;
      var k :| 0 <= k < |valid| && valid[k] == kbs[j];
    }
  }

  /** One batch of `check_file_exist_by_name`: the live files of the user's
      knowledge base `kbId` whose name is in `names`. */
  function FilesNamed(files: seq<FileRow>, kbs: seq<KbRow>, userId: string, kbId: string, names: seq<string>): seq<FileRow>
  {
    var owned := OwnedBy(kbs, kbId, userId);
    Filter(files, (f: FileRow) => owned && !f.deleted && f.fileName in names && f.kbId == kbId)
  }

  /** The batches' results, one after the other. */
  function FilesNamedByBatch(files: seq<FileRow>, kbs: seq<KbRow>, userId: string, kbId: string,
                             batches: seq<seq<string>>): seq<FileRow>
  {
    if |batches| == 0 then []
    else FilesNamed(files, kbs, userId, kbId, batches[0]) + FilesNamedByBatch(files, kbs, userId, kbId, batches[1..])
  }

  /** Asking batch by batch finds a row exactly when asking for all names at once does. */
  lemma {:induction false} FilesNamedByBatchMembership(files: seq<FileRow>, kbs: seq<KbRow>, userId: string,
                                                       kbId: string, batches: seq<seq<string>>, x: FileRow)
    ensures x in FilesNamedByBatch(files, kbs, userId, kbId, batches)
            <==> x in FilesNamed(files, kbs, userId, kbId, Flatten(batches))
  {
    var owned := OwnedBy(kbs, kbId, userId);
    InFilter(files, (f: FileRow) => owned && !f.deleted && f.fileName in Flatten(batches) && f.kbId == kbId, x);
    if |batches| > 0 {
      FilesNamedByBatchMembership(files, kbs, userId, kbId, batches[1..], x);
      InFilter(files, (f: FileRow) => owned && !f.deleted && f.fileName in batches[0] && f.kbId == kbId, x);
      InFilter(files, (f: FileRow) => owned && !f.deleted && f.fileName in Flatten(batches[1..]) && f.kbId == kbId, x);
      assert Flatten(batches) == batches[0] + Flatten(batches[1..]);
    }
  }

  /** One step of the batching loop: the batch starting at i, then the rest. */
  lemma FilesNamedByBatchFrom(files: seq<FileRow>, kbs: seq<KbRow>, userId: string, kbId: string,
                              names: seq<string>, i: nat, done: seq<FileRow>)
    requires i < |names|
    ensures var j := if i + BatchSize <= |names| then i + BatchSize else |names|;
            done + FilesNamedByBatch(files, kbs, userId, kbId, Batches(names[i..], BatchSize))
            == (done + FilesNamed(files, kbs, userId, kbId, names[i..j]))
               + FilesNamedByBatch(files, kbs, userId, kbId, Batches(names[j..], BatchSize))
  {
    var j := if i + BatchSize <= |names| then i + BatchSize else |names|;
    BatchesFrom(names, BatchSize, i);
    var rest := Batches(names[j..], BatchSize);
    assert ([names[i..j]] + rest)[1..] == rest;
    var now, later := FilesNamed(files, kbs, userId, kbId, names[i..j]), FilesNamedByBatch(files, kbs, userId, kbId, rest);
    assert done + (now + later) == (done + now) + later;
  }

  /** `doc_id LIKE '<file_id>_%'`: the file id, one more character, then anything. */
  predicate DocOfFile(docId: string, fileId: string)
  {
    |docId| > |fileId| && docId[..|fileId|] == fileId
  }

  /** A document of one of the files. */
  predicate DocOfAny(docId: string, fileIds: seq<string>)
  {
    exists k :: 0 <= k < |fileIds| && DocOfFile(docId, fileIds[k])
  }

  lemma DocOfAnyExtend(docId: string, fileIds: seq<string>, n: nat)
    requires n < |fileIds|
    ensures DocOfAny(docId, fileIds[..n + 1]) == (DocOfAny(docId, fileIds[..n]) || DocOfFile(docId, fileIds[n]))
  {
    var ids, ids' := fileIds[..n], fileIds[..n + 1];
    if DocOfAny(docId, ids') {
      var k :| 0 <= k < n + 1 && DocOfFile(docId, ids'[k]);
      if k < n {
        assert ids[k] == ids'[k];
      }
    }
    if DocOfAny(docId, ids) {
      var k :| 0 <= k < n && DocOfFile(docId, ids[k]);
      assert ids'[k] == ids[k];
    }
    if DocOfFile(docId, fileIds[n]) {
      assert ids'[n] == fileIds[n];
    }
  }

  /** `SELECT doc_id, json_data FROM Documents WHERE doc_id LIKE '<file_id>_%'`. */
  function DocsOfFile(docs: seq<DocRow>, fileId: string): seq<DocRow>
  {
    Filter(docs, (d: DocRow) => DocOfFile(d.docId, fileId))
  }

  /** The doc_id column of a result. */
  function DocIds(docs: seq<DocRow>): seq<string>
  {
    seq(|docs|, k requires 0 <= k < |docs| => docs[k].docId)
  }

  /** Deleting the listed ids of the documents a LIKE found removes exactly
      what the LIKE matches. */
  lemma DeletingFoundDocs(docs: seq<DocRow>, fileId: string)
    ensures Without(docs, DocIdOf, DocIds(DocsOfFile(docs, fileId)))
            == Filter(docs, (d: DocRow) => !DocOfFile(d.docId, fileId))
  {
    var found := DocsOfFile(docs, fileId);
    var ids := DocIds(found);
    forall k | 0 <= k < |docs|
      ensures docs[k].docId in ids <==> DocOfFile(docs[k].docId, fileId)
    {
      if docs[k].docId in ids {
        var j :| 0 <= j < |ids| && ids[j] == docs[k].docId;
        assert found[j] in docs && DocOfFile(found[j].docId, fileId);
      }
      if DocOfFile(docs[k].docId, fileId) {
        assert docs[k] in found;
        var j :| 0 <= j < |found| && found[j] == docs[k];
        assert ids[j] == docs[k].docId;
      }
    }
    WithoutMatches(docs, ids, fileId);
  }

  /** Deleting the ids that are exactly the LIKE matches of a table is
      filtering the matches out. */
  lemma {:induction false} WithoutMatches(docs: seq<DocRow>, ids: seq<string>, fileId: string)
    requires forall k :: 0 <= k < |docs| ==> (docs[k].docId in ids <==> DocOfFile(docs[k].docId, fileId))
    ensures Without(docs, DocIdOf, ids) == Filter(docs, (d: DocRow) => !DocOfFile(d.docId, fileId))
  {
    if |docs| > 0 {
      assert forall k :: 0 <= k < |docs| - 1 ==> docs[1..][k] == docs[k + 1];
      WithoutMatches(docs[1..], ids, fileId);
    }
  }

  /** `LIMIT limit OFFSET offset` over a result in storage order. */
  function Page<T>(s: seq<T>, offset: nat, limit: nat): (r: seq<T>)
    ensures |r| == if offset >= |s| then 0 else Min(limit, |s| - offset)
    ensures forall k :: 0 <= k < |r| ==> r[k] == s[offset + k]
  {
    s[Min(offset, |s|)..Min(offset + limit, |s|)]
  }

  /** The rows before a page, then the page, are the rows before the next page. */
  lemma PrefixThenPage<T>(s: seq<T>, offset: nat, limit: nat)
    ensures s[..Min(offset, |s|)] + Page(s, offset, limit) == s[..Min(offset + limit, |s|)]
  {
  }

  /** `SELECT ... FROM File WHERE kb_id = ... AND deleted = 0`. */
  function LiveFilesOfKb(files: seq<FileRow>, kbId: string): seq<FileRow>
  {
    Filter(files, (f: FileRow) => f.kbId == kbId && !f.deleted)
  }

  // ---------------------------------------------------------------------
  // get_chunk_size
  // ---------------------------------------------------------------------

  /** `SELECT ... FROM File WHERE file_id IN (ids)`. */
  function RowsWithIds(files: seq<FileRow>, ids: seq<string>): seq<FileRow>
  {
    Filter(files, (f: FileRow) => f.fileId in ids)
  }

  /** The chunk_size column of a result. */
  function ChunkSizes(rows: seq<FileRow>): seq<int>
  {
    seq(|rows|, k requires 0 <= k < |rows| => rows[k].chunkSize)
  }

  /** The slice of at most 100 ids starting at offset, queried; then the
      slices after it. */
  function RowsInSlices(files: seq<FileRow>, ids: seq<string>, offset: nat): seq<FileRow>
    decreases |ids| - offset
  {
    if offset >= |ids| then []
    else RowsWithIds(files, Page(ids, offset, PageSize)) + RowsInSlices(files, ids, offset + PageSize)
  }

  /** One turn of the slice loop: the rows found so far, then this slice's
      rows, then the later slices' rows. */
  lemma RowsInSlicesStep(files: seq<FileRow>, ids: seq<string>, offset: nat, done: seq<FileRow>)
    requires offset < |ids|
    ensures done + RowsInSlices(files, ids, offset)
            == (done + RowsWithIds(files, Page(ids, offset, PageSize))) + RowsInSlices(files, ids, offset + PageSize)
  {
    var rows := RowsWithIds(files, Page(ids, offset, PageSize));
    var later := RowsInSlices(files, ids, offset + PageSize);
    assert RowsInSlices(files, ids, offset) == rows + later;
    assert done + (rows + later) == (done + rows) + later;
  }

  /** The same walk, stopping at the first slice that finds no row. */
  function RowsUntilEmptySlice(files: seq<FileRow>, ids: seq<string>, offset: nat): seq<FileRow>
    decreases |ids| - offset
  {
    if offset >= |ids| then []
    else
      var rows := RowsWithIds(files, Page(ids, offset, PageSize));
      if |rows| == 0 then [] else rows + RowsUntilEmptySlice(files, ids, offset + PageSize)
  }

  /** One turn of the as-written slice loop, when the slice found rows. */
  lemma RowsUntilEmptySliceStep(files: seq<FileRow>, ids: seq<string>, offset: nat, done: seq<FileRow>)
    requires offset < |ids| && |RowsWithIds(files, Page(ids, offset, PageSize))| > 0
    ensures done + RowsUntilEmptySlice(files, ids, offset)
            == (done + RowsWithIds(files, Page(ids, offset, PageSize))) + RowsUntilEmptySlice(files, ids, offset + PageSize)
  {
    var rows := RowsWithIds(files, Page(ids, offset, PageSize));
    var later := RowsUntilEmptySlice(files, ids, offset + PageSize);
    assert RowsUntilEmptySlice(files, ids, offset) == rows + later;
    assert done + (rows + later) == (done + rows) + later;
  }

  /** Walking every slice from offset finds exactly the rows whose file id
      is among the ids from offset on. */
  lemma {:induction false} RowsInSlicesMembership(files: seq<FileRow>, ids: seq<string>, offset: nat, x: FileRow)
    ensures x in RowsInSlices(files, ids, offset) <==> x in files && x.fileId in ids[Min(offset, |ids|)..]
    decreases |ids| - offset
  {
    if offset < |ids| {
      var page := Page(ids, offset, PageSize);
      RowsInSlicesMembership(files, ids, offset + PageSize, x);
      InFilter(files, (f: FileRow) => f.fileId in page, x);
      assert ids[offset..] == page + ids[Min(offset + PageSize, |ids|)..];
    }
  }

  /** Querying every slice returns the chunk size of every listed file, and
      only of listed files. */
  lemma ChunkSizesCoverListed(files: seq<FileRow>, ids: seq<string>)
    ensures var sizes := ChunkSizes(RowsInSlices(files, ids, 0));
            && (forall k :: 0 <= k < |files| && files[k].fileId in ids ==> files[k].chunkSize in sizes)
            && (forall c :: c in sizes ==>
                  exists k :: 0 <= k < |files| && files[k].fileId in ids && files[k].chunkSize == c)
  {
    var rows := RowsInSlices(files, ids, 0);
    var sizes := ChunkSizes(rows);
    assert ids[Min(0, |ids|)..] == ids;
    forall k | 0 <= k < |files| && files[k].fileId in ids
      ensures files[k].chunkSize in sizes
    {
      RowsInSlicesMembership(files, ids, 0, files[k]);
      var j :| 0 <= j < |rows| && rows[j] == files[k];
      assert sizes[j] == files[k].chunkSize;
    }
    forall c | c in sizes
      ensures exists k :: 0 <= k < |files| && files[k].fileId in ids && files[k].chunkSize == c
    {
      var j :| 0 <= j < |sizes| && sizes[j] == c;
      RowsInSlicesMembership(files, ids, 0, rows[j]);
      var k :| 0 <= k < |files| && files[k] == rows[j];
    }
  }

  /** A list of 101 ids whose first 100 name no file: walking the slices
      until one comes back empty never reaches the 101st id, so the listed
      file's chunk size is missing. */
  lemma ChunkSizeSkipsLaterSlices()
    ensures var files := [FileRow(1, "b", "u", "kb", "b.txt", Green, "", false, 10, 10, 1, 800, "202401010000")];
            var ids := seq(100, _ => "a") + ["b"];
            && files[0].fileId in ids
            && ChunkSizes(RowsUntilEmptySlice(files, ids, 0)) == []
  {
    var files := [FileRow(1, "b", "u", "kb", "b.txt", Green, "", false, 10, 10, 1, 800, "202401010000")];
    var ids := seq(100, _ => "a") + ["b"];
    assert ids[100] == "b";
    assert Page(ids, 0, PageSize) == ids[0..100];
    assert "b" !in ids[0..100];
    assert RowsWithIds(files, ids[0..100]) == [];
  }

  // ---------------------------------------------------------------------
  // get_total_status_by_date
  // ---------------------------------------------------------------------

  /** `LEFT(timestamp, 8)`: the YYYYMMDD part of the upload time. */
  function DateOf(timestamp: string): string
  {
    timestamp[..Min(8, |timestamp|)]
  }

  /** A row of the `GROUP BY LEFT(timestamp, 8), status` query. */
  datatype StatusCount = StatusCount(date: string, status: Status, number: nat)

  /** The user's files uploaded on `date` and in `status`. */
  function CountOf(files: seq<FileRow>, userId: string, date: string, status: Status): nat
  {
    |Filter(files, (f: FileRow) => f.userId == userId && DateOf(f.timestamp) == date && f.status == status)|
  }

  /** The (date, status) groups of the user's files, each once. */
  function Groups(files: seq<FileRow>, userId: string): (r: seq<(string, Status)>)
    ensures forall a, b :: 0 <= a < b < |r| ==> r[a] != r[b]
    ensures forall g :: g in r <==>
              exists k :: 0 <= k < |files| && files[k].userId == userId && (DateOf(files[k].timestamp), files[k].status) == g
    decreases |files|
  {
    if |files| == 0 then []
    else
      var init := files[..|files| - 1];
      var f := files[|files| - 1];
      var r := Groups(init, userId);
      assert forall k :: 0 <= k < |init| ==> init[k] == files[k];
      if f.userId == userId && (DateOf(f.timestamp), f.status) !in r then r + [(DateOf(f.timestamp), f.status)] else r
  }

  /** Every group holds at least one of the user's files. */
  lemma GroupsAreNonEmpty(files: seq<FileRow>, userId: string)
    ensures forall g :: g in Groups(files, userId) ==> CountOf(files, userId, g.0, g.1) >= 1
  {
    forall g | g in Groups(files, userId)
      ensures CountOf(files, userId, g.0, g.1) >= 1
    {
      var k :| 0 <= k < |files| && files[k].userId == userId && (DateOf(files[k].timestamp), files[k].status) == g;
      InFilter(files, (f: FileRow) => f.userId == userId && DateOf(f.timestamp) == g.0 && f.status == g.1, files[k]);
    }
  }

  /** The rows the grouping query returns for the user: one per group, with
      the group's number of files, which is never zero. */
  function StatusCounts(files: seq<FileRow>, userId: string): (r: seq<StatusCount>)
    ensures var groups := Groups(files, userId);
            |r| == |groups| && forall k :: 0 <= k < |r| ==>
              && (r[k].date, r[k].status) == groups[k]
              && r[k].number == CountOf(files, userId, groups[k].0, groups[k].1)
              && r[k].number >= 1
  {
    var groups := Groups(files, userId);
    GroupsAreNonEmpty(files, userId);
    seq(|groups|, k requires 0 <= k < |groups| =>
      StatusCount(groups[k].0, groups[k].1, CountOf(files, userId, groups[k].0, groups[k].1)))
  }

  /** The user's files: `WHERE user_id = %s`. */
  function UserFiles(files: seq<FileRow>, userId: string): seq<FileRow>
  {
    Filter(files, (f: FileRow) => f.userId == userId)
  }

  /** The sum of the `number` column. */
  function Total(rows: seq<StatusCount>): nat
  {
    if |rows| == 0 then 0 else Total(rows[..|rows| - 1]) + rows[|rows| - 1].number
  }

  /** The user's files counted group by group, for the given groups. */
  function GroupTotal(files: seq<FileRow>, userId: string, groups: seq<(string, Status)>): nat
  {
    if |groups| == 0 then 0
    else
      var g := groups[|groups| - 1];
      GroupTotal(files, userId, groups[..|groups| - 1]) + CountOf(files, userId, g.0, g.1)
  }

  /** One more file adds one to its own group's count and to no other. */
  lemma CountOfSnoc(init: seq<FileRow>, f: FileRow, userId: string, date: string, status: Status)
    ensures CountOf(init + [f], userId, date, status)
            == CountOf(init, userId, date, status)
               + (if f.userId == userId && DateOf(f.timestamp) == date && f.status == status then 1 else 0)
  {
    FilterSnoc(init, f, (f: FileRow) => f.userId == userId && DateOf(f.timestamp) == date && f.status == status);
  }

  /** Over distinct groups, one more file adds one exactly when its group is
      among them. */
  lemma {:induction false} GroupTotalSnoc(init: seq<FileRow>, f: FileRow, userId: string, groups: seq<(string, Status)>)
    requires forall a, b :: 0 <= a < b < |groups| ==> groups[a] != groups[b]
    ensures GroupTotal(init + [f], userId, groups)
            == GroupTotal(init, userId, groups)
               + (if f.userId == userId && (DateOf(f.timestamp), f.status) in groups then 1 else 0)
  {
    if |groups| > 0 {
      var before := groups[..|groups| - 1];
      var g := groups[|groups| - 1];
      GroupTotalSnoc(init, f, userId, before);
      CountOfSnoc(init, f, userId, g.0, g.1);
      assert groups == before + [g];
      if (DateOf(f.timestamp), f.status) == g {
        assert g !in before by {
          forall a | 0 <= a < |before|
            ensures before[a] != g
          {
            assert groups[a] != groups[|groups| - 1];
          }
        }
      }
    }
  }

  /** A pair with files is a group. */
  lemma CountedIsGrouped(files: seq<FileRow>, userId: string, g: (string, Status))
    requires CountOf(files, userId, g.0, g.1) > 0
    ensures g in Groups(files, userId)
  {
    var matching := Filter(files, (f: FileRow) => f.userId == userId && DateOf(f.timestamp) == g.0 && f.status == g.1);
    assert matching[0] in files;
    var k :| 0 <= k < |files| && files[k] == matching[0];
    assert files[k].userId == userId && (DateOf(files[k].timestamp), files[k].status) == g;
  }

  /** Counting group by group counts each of the user's files once. */
  lemma {:induction false} GroupsCountUserFiles(files: seq<FileRow>, userId: string)
    ensures GroupTotal(files, userId, Groups(files, userId)) == |UserFiles(files, userId)|
    decreases |files|
  {
    if |files| > 0 {
      var init := files[..|files| - 1];
      var f := files[|files| - 1];
      var g := (DateOf(f.timestamp), f.status);
      var before := Groups(init, userId);
      assert files == init + [f];
      GroupsCountUserFiles(init, userId);
      FilterSnoc(init, f, (f: FileRow) => f.userId == userId);
      GroupTotalSnoc(init, f, userId, before);
      if f.userId == userId && g !in before {
        assert Groups(files, userId) == before + [g];
        if CountOf(init, userId, g.0, g.1) > 0 {
          CountedIsGrouped(init, userId, g);
          assert false;
        }
        CountOfSnoc(init, f, userId, g.0, g.1);
        assert (before + [g])[..|before|] == before;
      }
    }
  }

  /** Rows carrying the groups' counts add up to the groups' total. */
  lemma {:induction false} TotalOfCounts(rows: seq<StatusCount>, files: seq<FileRow>, userId: string,
                                         groups: seq<(string, Status)>)
    requires |rows| == |groups|
    requires forall k :: 0 <= k < |rows| ==> rows[k].number == CountOf(files, userId, groups[k].0, groups[k].1)
    ensures Total(rows) == GroupTotal(files, userId, groups)
  {
    if |rows| > 0 {
      TotalOfCounts(rows[..|rows| - 1], files, userId, groups[..|groups| - 1]);
    }
  }

  /** The numbers of the grouping query add up to the user's file count:
      every file of the user is in exactly one group. */
  lemma StatusCountsTotal(files: seq<FileRow>, userId: string)
    ensures Total(StatusCounts(files, userId)) == |UserFiles(files, userId)|
  {
    TotalOfCounts(StatusCounts(files, userId), files, userId, Groups(files, userId));
    GroupsCountUserFiles(files, userId);
  }

  /** `files_by_date[date][status] = number`, row after row. */
  function GroupByDate(rows: seq<StatusCount>): map<string, map<Status, nat>>
  {
    if |rows| == 0 then map[]
    else
      var m := GroupByDate(rows[..|rows| - 1]);
      var row := rows[|rows| - 1];
      m[row.date := (if row.date in m then m[row.date] else map[])[row.status := row.number]]
  }

  /** No later row has the same date and status. */
  predicate LastOfGroup(rows: seq<StatusCount>, k: nat)
    requires k < |rows|
  {
    forall j :: k < j < |rows| ==> rows[j].date != rows[k].date || rows[j].status != rows[k].status
  }

  /** Every date of the rows is a key, and nothing else is. */
  lemma {:induction false} GroupByDateKeys(rows: seq<StatusCount>, d: string)
    ensures d in GroupByDate(rows) <==> exists k :: 0 <= k < |rows| && rows[k].date == d
  {
    if |rows| > 0 {
      var init := rows[..|rows| - 1];
      GroupByDateKeys(init, d);
      if exists k :: 0 <= k < |init| && init[k].date == d {
        var k :| 0 <= k < |init| && init[k].date == d;
        assert rows[k] == init[k];
      }
      if exists k :: 0 <= k < |rows| && rows[k].date == d {
        var k :| 0 <= k < |rows| && rows[k].date == d;
        if k < |init| {
          assert init[k] == rows[k];
        }
      }
    }
  }

  /** A (date, status) entry exists exactly when some row has them. */
  lemma {:induction false} GroupByDateEntries(rows: seq<StatusCount>, d: string, s: Status)
    ensures d in GroupByDate(rows) && s in GroupByDate(rows)[d] <==>
              exists k :: 0 <= k < |rows| && rows[k].date == d && rows[k].status == s
  {
    if |rows| > 0 {
      var init := rows[..|rows| - 1];
      GroupByDateEntries(init, d, s);
      if exists k :: 0 <= k < |init| && init[k].date == d && init[k].status == s {
        var k :| 0 <= k < |init| && init[k].date == d && init[k].status == s;
        assert rows[k] == init[k];
      }
      if exists k :: 0 <= k < |rows| && rows[k].date == d && rows[k].status == s {
        var k :| 0 <= k < |rows| && rows[k].date == d && rows[k].status == s;
        if k < |init| {
          assert init[k] == rows[k];
        }
      }
    }
  }

  /** An entry holds the number of the last row with its date and status. */
  lemma {:induction false} GroupByDateLast(rows: seq<StatusCount>, k: nat)
    requires k < |rows| && LastOfGroup(rows, k)
    ensures rows[k].date in GroupByDate(rows) && rows[k].status in GroupByDate(rows)[rows[k].date]
    ensures GroupByDate(rows)[rows[k].date][rows[k].status] == rows[k].number
  {
    var init := rows[..|rows| - 1];
    if k < |init| {
      assert init[k] == rows[k];
      assert LastOfGroup(init, k) by {
        forall j | k < j < |init|
          ensures init[j].date != init[k].date || init[j].status != init[k].status
        {
          assert init[j] == rows[j];
        }
      }
      GroupByDateLast(init, k);
    }
  }

  /** `get_total_status_by_date`: the keys are the dates on which the user
      uploaded files, and under each date every status those files are in,
      with how many there are. */
  lemma TotalStatusByDateCounts(files: seq<FileRow>, userId: string)
    ensures var byDate := GroupByDate(StatusCounts(files, userId));
            && (forall d :: d in byDate <==>
                  exists k :: 0 <= k < |files| && files[k].userId == userId && DateOf(files[k].timestamp) == d)
            && (forall d, s :: d in byDate && s in byDate[d] <==>
                  exists k :: 0 <= k < |files| && files[k].userId == userId
                              && DateOf(files[k].timestamp) == d && files[k].status == s)
            && (forall d, s :: d in byDate && s in byDate[d] ==> byDate[d][s] == CountOf(files, userId, d, s))
  {
    var byDate := GroupByDate(StatusCounts(files, userId));
    forall d
      ensures d in byDate <==>
                exists k :: 0 <= k < |files| && files[k].userId == userId && DateOf(files[k].timestamp) == d
    {
      DateIsKey(files, userId, d);
    }
    forall d, s
      ensures d in byDate && s in byDate[d] <==>
                exists k :: 0 <= k < |files| && files[k].userId == userId
                            && DateOf(files[k].timestamp) == d && files[k].status == s
    {
      GroupIsEntry(files, userId, d, s);
    }
    forall d, s | d in byDate && s in byDate[d]
      ensures byDate[d][s] == CountOf(files, userId, d, s)
    {
      EntryIsCount(files, userId, d, s);
    }
  }

  lemma DateIsKey(files: seq<FileRow>, userId: string, d: string)
    ensures d in GroupByDate(StatusCounts(files, userId)) <==>
              exists k :: 0 <= k < |files| && files[k].userId == userId && DateOf(files[k].timestamp) == d
  {
    var rows := StatusCounts(files, userId);
    var groups := Groups(files, userId);
    GroupByDateKeys(rows, d);
    RowsFollowGroups(files, userId);
    GroupDates(rows, groups, d);
    UserDates(files, userId, d);
  }

  lemma GroupIsEntry(files: seq<FileRow>, userId: string, d: string, s: Status)
    ensures var byDate := GroupByDate(StatusCounts(files, userId));
            d in byDate && s in byDate[d] <==>
              exists k :: 0 <= k < |files| && files[k].userId == userId
                          && DateOf(files[k].timestamp) == d && files[k].status == s
  {
    var rows := StatusCounts(files, userId);
    var groups := Groups(files, userId);
    GroupByDateEntries(rows, d, s);
    RowsFollowGroups(files, userId);
    GroupPairs(rows, groups, d, s);
    assert (exists k :: 0 <= k < |files| && files[k].userId == userId
                        && DateOf(files[k].timestamp) == d && files[k].status == s) <==> (d, s) in groups;
  }

  /** The grouping query returns one row per group, in the groups' order. */
  lemma RowsFollowGroups(files: seq<FileRow>, userId: string)
    ensures var rows := StatusCounts(files, userId);
            var groups := Groups(files, userId);
            |rows| == |groups| && forall k :: 0 <= k < |rows| ==> rows[k].date == groups[k].0 && rows[k].status == groups[k].1
  {
  }

  lemma GroupDates(rows: seq<StatusCount>, groups: seq<(string, Status)>, d: string)
    requires |rows| == |groups| && forall k :: 0 <= k < |rows| ==> rows[k].date == groups[k].0
    ensures (exists k :: 0 <= k < |rows| && rows[k].date == d) <==> (exists k :: 0 <= k < |groups| && groups[k].0 == d)
  {
    if exists k :: 0 <= k < |groups| && groups[k].0 == d {
      var k :| 0 <= k < |groups| && groups[k].0 == d;
      assert rows[k].date == d;
    }
  }

  lemma GroupPairs(rows: seq<StatusCount>, groups: seq<(string, Status)>, d: string, s: Status)
    requires |rows| == |groups|
    requires forall k :: 0 <= k < |rows| ==> rows[k].date == groups[k].0 && rows[k].status == groups[k].1
    ensures (exists k :: 0 <= k < |rows| && rows[k].date == d && rows[k].status == s) <==> (d, s) in groups
  {
    if (d, s) in groups {
      var k :| 0 <= k < |groups| && groups[k] == (d, s);
      assert rows[k].date == d && rows[k].status == s;
    }
  }

  /** A date is a group's date exactly when some file of the user has it. */
  lemma UserDates(files: seq<FileRow>, userId: string, d: string)
    ensures (exists j :: 0 <= j < |Groups(files, userId)| && Groups(files, userId)[j].0 == d) <==>
            exists k :: 0 <= k < |files| && files[k].userId == userId && DateOf(files[k].timestamp) == d
  {
    var groups := Groups(files, userId);
    forall j | 0 <= j < |groups| && groups[j].0 == d
      ensures exists k :: 0 <= k < |files| && files[k].userId == userId && DateOf(files[k].timestamp) == d
    {
      assert groups[j] in groups;
      var k :| 0 <= k < |files| && files[k].userId == userId
               && (DateOf(files[k].timestamp), files[k].status) == groups[j];
      assert DateOf(files[k].timestamp) == d;
    }
    forall k | 0 <= k < |files| && files[k].userId == userId && DateOf(files[k].timestamp) == d
      ensures exists j :: 0 <= j < |groups| && groups[j].0 == d
    {
      var g := (DateOf(files[k].timestamp), files[k].status);
      assert g in groups;
      var j :| 0 <= j < |groups| && groups[j] == g;
      assert groups[j].0 == d;
    }
  }

  lemma EntryIsCount(files: seq<FileRow>, userId: string, d: string, s: Status)
    requires var byDate := GroupByDate(StatusCounts(files, userId));
             d in byDate && s in byDate[d]
    ensures GroupByDate(StatusCounts(files, userId))[d][s] == CountOf(files, userId, d, s)
  {
    var rows := StatusCounts(files, userId);
    var groups := Groups(files, userId);
    GroupByDateEntries(rows, d, s);
    var k :| 0 <= k < |rows| && rows[k].date == d && rows[k].status == s;
    assert LastOfGroup(rows, k) by {
      forall j | k < j < |rows|
        ensures rows[j].date != rows[k].date || rows[j].status != rows[k].status
      {
        assert groups[j] != groups[k];
      }
    }
    GroupByDateLast(rows, k);
  }

  // ---------------------------------------------------------------------
  // get_document_by_file_id
  // ---------------------------------------------------------------------

  /** The exceptions the reshaping can raise: a doc id with no second
      '_'-separated field, or a suffix `int()` cannot read. */
  datatype DocError = IndexError | ValueError

  /** s is `head + "_" + field + tail` with no '_' in head and tail empty
      or starting with '_': field is the second '_'-separated field of s. */
  predicate FieldSplit(s: string, head: string, field: string, tail: string)
  {
    s == head + "_" + field + tail && '_' !in head && '_' !in field && (tail == [] || tail[0] == '_')
  }

  /** After the first '_' of s (at index i), a '_'-free field followed by
      the end or by a '_' is the second field. */
  lemma FieldSplitAt(s: string, i: nat, field: string, tail: string)
    requires i < |s| && s[i] == '_' && '_' !in s[..i]
    requires s[i + 1..] == field + tail && '_' !in field && (tail == [] || tail[0] == '_')
    ensures FieldSplit(s, s[..i], field, tail)
  {
    assert s == s[..i] + "_" + s[i + 1..];
  }

  /** `s.split('_')[1]`: the text between the first '_' and the next one (or
      the end); there is none when s has no '_'. */
  function SecondField(s: string): (r: Option<string>)
    ensures r.None? <==> '_' !in s
    ensures r.Some? ==> '_' !in r.value
    ensures r.Some? ==> exists head, tail :: FieldSplit(s, head, r.value, tail)
  {
    match IndexOf(s, '_')
    case None => None
    case Some(i) =>
      var rest := s[i + 1..];
      match IndexOf(rest, '_')
      case None =>
        assert rest == rest + [];
        FieldSplitAt(s, i, rest, []);
        Some(rest)
      case Some(j) =>
        assert rest == rest[..j] + rest[j..];
        FieldSplitAt(s, i, rest[..j], rest[j..]);
        Some(rest[..j])
  }

  /** The split determines the field: whatever head and tail cut s that
      way, `split('_')[1]` is that field. */
  lemma SecondFieldOfSplit(s: string, head: string, field: string, tail: string)
    requires FieldSplit(s, head, field, tail)
    ensures SecondField(s) == Some(field)
  {
    assert s == head + "_" + (field + tail);
    IndexOfAfterPrefix(head, field + tail);
    assert s[|head| + 1..] == field + tail;
    if tail == [] {
      assert field + tail == field;
    } else {
      assert field + tail == field + "_" + tail[1..];
      IndexOfAfterPrefix(field, tail[1..]);
      assert (field + tail)[..|field|] == field;
    }
  }

  /** A non-empty run of decimal digits. */
  predicate Decimal(s: string)
  {
    |s| > 0 && forall k :: 0 <= k < |s| ==> IsDigit(s[k])
  }

  /** Python's `int(s)` on a string of decimal digits; anything else is
      refused. */
  function ParseInt(s: string): (r: Option<nat>)
    ensures r.Some? <==> Decimal(s)
  {
    if |s| > 0 && forall k :: 0 <= k < |s| ==> IsDigit(s[k]) then Some(DigitsValue(s)) else None
  }

  /** A chunk stored under '<file_id>_<n>' by a file id without '_' is found
      by the LIKE, its suffix is n's decimal form, and the suffix reads back
      as n. */
  lemma {:induction false} ChunkIdRoundTrip(fileId: string, n: nat)
    requires '_' !in fileId
    ensures DocOfFile(fileId + "_" + NatToString(n), fileId)
    ensures SecondField(fileId + "_" + NatToString(n)) == Some(NatToString(n))
    ensures ParseInt(NatToString(n)) == Some(DigitsValue(NatToString(n))) == Some(n)
  {
    var digits := NatToString(n);
    var docId := fileId + "_" + digits;
    assert docId[..|fileId|] == fileId;
    IndexOfAfterPrefix(fileId, digits);
    assert docId[|fileId| + 1..] == digits;
    assert '_' !in digits by {
      forall k | 0 <= k < |digits|
        ensures digits[k] != '_'
      {
        assert IsDigit(digits[k]);
      }
    }
    DigitsValueOfNatToString(n);
  }

  lemma IndexOfAfterPrefix(head: string, tail: string)
    requires '_' !in head
    ensures IndexOf(head + "_" + tail, '_') == Some(|head|)
  {
    var s := head + "_" + tail;
    assert s[|head|] == '_';
    assert s[..|head|] == head;
  }

  /** `json_data['kwargs']['chunk_id'] = chunk_id`. */
  function WithChunkId(json: DocumentJson, chunkId: string): (r: DocumentJson)
    ensures "chunk_id" in r.kwargs && r.kwargs["chunk_id"] == chunkId
    ensures forall key :: key != "chunk_id" ==> (key in r.kwargs <==> key in json.kwargs)
    ensures forall key :: key != "chunk_id" && key in json.kwargs ==> r.kwargs[key] == json.kwargs[key]
  {
    json.(kwargs := json.kwargs["chunk_id" := chunkId])
  }

  /** One document's `(doc_id.split('_')[1], json_data)` pair, its
      json_data with the chunk_id rebuilt from the file id and that suffix. */
  function Tag(fileId: string, doc: DocRow): (r: (string, DocumentJson))
    requires SecondField(doc.docId).Some?
    ensures "chunk_id" in r.1.kwargs && r.1.kwargs["chunk_id"] == fileId + "_" + r.0
  {
    var suffix := SecondField(doc.docId).value;
    (suffix, WithChunkId(doc.json, fileId + "_" + suffix))
  }

  /** One document's pair; a doc id without a second field raises IndexError. */
  function TagOne(fileId: string, doc: DocRow): Result<seq<(string, DocumentJson)>, DocError>
  {
    if SecondField(doc.docId).None? then Failure(IndexError) else Success([Tag(fileId, doc)])
  }

  function TagFn(fileId: string): DocRow -> Result<seq<(string, DocumentJson)>, DocError>
  {
    (doc: DocRow) => TagOne(fileId, doc)
  }

  /** A page's pairs, `[(doc_id.split('_')[1], json_data) for ...]`. */
  function Tagged(fileId: string, docs: seq<DocRow>): Result<seq<(string, DocumentJson)>, DocError>
  {
    TryConcat(TagFn(fileId), docs)
  }

  /** A page tags cleanly exactly when every doc id has a second field; then
      its pairs are, position by position, the suffix and the json with the
      chunk_id rebuilt; otherwise IndexError is raised. */
  lemma TaggedContents(fileId: string, docs: seq<DocRow>)
    ensures Tagged(fileId, docs).Failure? <==> exists k :: 0 <= k < |docs| && SecondField(docs[k].docId).None?
    ensures Tagged(fileId, docs).Failure? ==> Tagged(fileId, docs).error == IndexError
    ensures var r := Tagged(fileId, docs);
            r.Success? ==> |r.value| == |docs| && forall k :: 0 <= k < |docs| ==>
              && SecondField(docs[k].docId) == Some(r.value[k].0)
              && r.value[k].1 == WithChunkId(docs[k].json, fileId + "_" + r.value[k].0)
  {
    var f := TagFn(fileId);
    forall k | 0 <= k < |docs|
      ensures f(docs[k]) == TagOne(fileId, docs[k])
    {
    }
    TryConcatSingles(f, docs);
  }

  /** A paging loop from `offset` on: each page of `batchSize` elements walked
      by f, until an empty page. */
  function PagedConcat<T, U, E>(f: T -> Result<seq<U>, E>, s: seq<T>, offset: nat, batchSize: nat): Result<seq<U>, E>
    decreases |s| - offset
  {
    if batchSize == 0 || offset >= |s| then Success([])
    else Join(TryConcat(f, Page(s, offset, batchSize)), PagedConcat(f, s, offset + batchSize, batchSize))
  }

  /** Paging does not change what is walked. */
  lemma {:induction false} PagedConcatIsConcat<T, U, E>(f: T -> Result<seq<U>, E>, s: seq<T>, offset: nat, batchSize: nat)
    requires batchSize > 0
    ensures PagedConcat(f, s, offset, batchSize) == TryConcat(f, s[Min(offset, |s|)..])
    decreases |s| - offset
  {
    if offset < |s| {
      var next := Min(offset + batchSize, |s|);
      PagedConcatIsConcat(f, s, offset + batchSize, batchSize);
      assert s[offset..] == s[offset..next] + s[next..];
      TryConcatAppend(f, s[offset..next], s[next..]);
    } else {
      assert s[Min(offset, |s|)..] == [];
    }
  }

  /** The paging loop of `get_document_by_file_id` from `offset` on: each
      page of `batchSize` matching documents tagged, until an empty page. */
  function TaggedPages(fileId: string, docs: seq<DocRow>, offset: nat, batchSize: nat): Result<seq<(string, DocumentJson)>, DocError>
  {
    PagedConcat(TagFn(fileId), docs, offset, batchSize)
  }

  /** What was already gathered, followed by what the remaining pages give. */
  function Prepend<U, E>(done: seq<U>, rest: Result<seq<U>, E>): (r: Result<seq<U>, E>)
    ensures |done| == 0 ==> r == rest
  {
    match rest
    case Failure(e) => Failure(e)
    case Success(more) => assert [] + more == more; Success(done + more)
  }

  /** One turn of the paging loop: a page that is walked cleanly joins what
      was gathered; a page that raises ends the walk with its error. */
  lemma PagedConcatStep<T, U, E>(f: T -> Result<seq<U>, E>, s: seq<T>, offset: nat, batchSize: nat, done: seq<U>)
    requires batchSize > 0 && offset < |s|
    ensures var page := TryConcat(f, Page(s, offset, batchSize));
            Prepend(done, PagedConcat(f, s, offset, batchSize))
            == if page.Failure? then Failure(page.error)
               else Prepend(done + page.value, PagedConcat(f, s, offset + batchSize, batchSize))
  {
    var page := TryConcat(f, Page(s, offset, batchSize));
    var later := PagedConcat(f, s, offset + batchSize, batchSize);
    if page.Success? && later.Success? {
      assert done + (page.value + later.value) == (done + page.value) + later.value;
    }
  }

  /** The paging loop: fetch the page at offset, stop at an empty one, walk
      it with f (the first error raised is the result), gather, move on. */
  method ReadPages<T, U, E>(f: T -> Result<seq<U>, E>, s: seq<T>, batchSize: nat) returns (r: Result<seq<U>, E>)
    ensures r == PagedConcat(f, s, 0, batchSize)
  {
    var gathered: seq<U> := [];
    var offset := 0;
    while true
      invariant PagedConcat(f, s, 0, batchSize) == Prepend(gathered, PagedConcat(f, s, offset, batchSize))
      decreases |s| - offset
    {
      var page := Page(s, offset, batchSize);
      if |page| == 0 {
        assert gathered + [] == gathered;
        break;
      }
      PagedConcatStep(f, s, offset, batchSize, gathered);
      var walked := TryConcat(f, page);
      if walked.Failure? {
        return Failure(walked.error);
      }
      gathered := gathered + walked.value;
      offset := offset + batchSize;
    }
    return Success(gathered);
  }

  /** Paging does not change what is tagged. */
  lemma TaggedPagesIsTagged(fileId: string, docs: seq<DocRow>, offset: nat, batchSize: nat)
    requires batchSize > 0
    ensures TaggedPages(fileId, docs, offset, batchSize) == Tagged(fileId, docs[Min(offset, |docs|)..])
  {
    PagedConcatIsConcat(TagFn(fileId), docs, offset, batchSize);
  }

  /** `int(x[0])` for every pair; a suffix that is not a number raises
      ValueError. */
  function Keyed(entries: seq<(string, DocumentJson)>): (r: Result<seq<(nat, DocumentJson)>, DocError>)
    ensures r.Failure? <==> exists k :: 0 <= k < |entries| && ParseInt(entries[k].0).None?
    ensures r.Failure? ==> r.error == ValueError
    ensures r.Success? ==> |r.value| == |entries| && forall k :: 0 <= k < |entries| ==>
              ParseInt(entries[k].0) == Some(r.value[k].0) && r.value[k].1 == entries[k].1
  {
    if exists k :: 0 <= k < |entries| && ParseInt(entries[k].0).None? then Failure(ValueError)
    else Success(seq(|entries|, k requires 0 <= k < |entries| => (ParseInt(entries[k].0).value, entries[k].1)))
  }

  predicate SortedByKey(s: seq<(nat, DocumentJson)>)
  {
    forall a, b :: 0 <= a < b < |s| ==> s[a].0 <= s[b].0
  }

  /** The entries with the given key, in order. */
  function WithKey(s: seq<(nat, DocumentJson)>, key: nat): seq<(nat, DocumentJson)>
  {
    if |s| == 0 then [] else (if s[0].0 == key then [s[0]] else []) + WithKey(s[1..], key)
  }

  /** Insert x before the first entry whose key is not smaller. */
  function InsertByKey(x: (nat, DocumentJson), s: seq<(nat, DocumentJson)>): seq<(nat, DocumentJson)>
  {
    if |s| == 0 then [x]
    else if x.0 <= s[0].0 then [x] + s
    else [s[0]] + InsertByKey(x, s[1..])
  }

  /** Inserting adds x once and keeps every other entry. */
  lemma {:induction false} InsertByKeyPermutes(x: (nat, DocumentJson), s: seq<(nat, DocumentJson)>)
    ensures multiset(InsertByKey(x, s)) == multiset(s) + multiset{x}
    ensures |InsertByKey(x, s)| == |s| + 1
  {
    if |s| > 0 && x.0 > s[0].0 {
      InsertByKeyPermutes(x, s[1..]);
      assert s == [s[0]] + s[1..];
      assert multiset(s) == multiset{s[0]} + multiset(s[1..]);
    }
  }

  /** Inserting into a sorted sequence keeps it sorted. */
  lemma {:induction false} InsertByKeySorted(x: (nat, DocumentJson), s: seq<(nat, DocumentJson)>)
    requires SortedByKey(s)
    ensures SortedByKey(InsertByKey(x, s))
    ensures |InsertByKey(x, s)| > 0
    ensures InsertByKey(x, s)[0] == if |s| == 0 || x.0 <= s[0].0 then x else s[0]
  {
    if |s| == 0 {
    } else if x.0 <= s[0].0 {
      var r := [x] + s;
      forall a, b | 0 <= a < b < |r|
        ensures r[a].0 <= r[b].0
      {
        if a > 0 {
          assert r[a] == s[a - 1] && r[b] == s[b - 1];
        } else {
          assert s[0].0 <= r[b].0;
        }
      }
    } else {
      var tail := s[1..];
      assert SortedByKey(tail) by {
        forall a, b | 0 <= a < b < |tail|
          ensures tail[a].0 <= tail[b].0
        {
          assert tail[a] == s[a + 1] && tail[b] == s[b + 1];
        }
      }
      InsertByKeySorted(x, tail);
      var rest := InsertByKey(x, tail);
      var r := [s[0]] + rest;
      assert s[0].0 <= rest[0].0;
      forall a, b | 0 <= a < b < |r|
        ensures r[a].0 <= r[b].0
      {
        assert r[b] == rest[b - 1];
        if a > 0 {
          assert r[a] == rest[a - 1];
        } else if b > 1 {
          assert rest[0].0 <= rest[b - 1].0;
        }
      }
      assert InsertByKey(x, s) == r;
    }
  }

  /** `list.sort(key=...)`, by insertion. */
  function SortByKey(s: seq<(nat, DocumentJson)>): (r: seq<(nat, DocumentJson)>)
    ensures SortedByKey(r) && multiset(r) == multiset(s)
  {
    if |s| == 0 then []
    else
      assert s == [s[0]] + s[1..];
      InsertByKeySorted(s[0], SortByKey(s[1..]));
      InsertByKeyPermutes(s[0], SortByKey(s[1..]));
      InsertByKey(s[0], SortByKey(s[1..]))
  }

  lemma WithKeyCons(y: (nat, DocumentJson), t: seq<(nat, DocumentJson)>, key: nat)
    ensures WithKey([y] + t, key) == (if y.0 == key then [y] else []) + WithKey(t, key)
  {
    assert ([y] + t)[1..] == t;
  }

  /** Inserting x puts it ahead of every entry with the same key. */
  lemma {:induction false} InsertByKeyWithKey(x: (nat, DocumentJson), s: seq<(nat, DocumentJson)>, key: nat)
    ensures WithKey(InsertByKey(x, s), key) == (if x.0 == key then [x] else []) + WithKey(s, key)
  {
    if |s| == 0 {
      assert InsertByKey(x, s) == [x] + s;
      WithKeyCons(x, s, key);
    } else if x.0 <= s[0].0 {
      WithKeyCons(x, s, key);
    } else {
      var here := if x.0 == key then [x] else [];
      var rest := InsertByKey(x, s[1..]);
      var tail := WithKey(s[1..], key);
      InsertByKeyWithKey(x, s[1..], key);
      WithKeyCons(s[0], rest, key);
      assert s == [s[0]] + s[1..];
      WithKeyCons(s[0], s[1..], key);
      if s[0].0 == key {
        assert here == [];
        assert WithKey(InsertByKey(x, s), key) == [s[0]] + ([] + tail);
        assert [] + tail == tail;
        assert WithKey(s, key) == [s[0]] + tail;
        assert [] + ([s[0]] + tail) == [s[0]] + tail;
      } else {
        assert WithKey(InsertByKey(x, s), key) == [] + (here + tail);
        assert [] + (here + tail) == here + tail;
        assert WithKey(s, key) == [] + tail;
        assert [] + tail == tail;
      }
    }
  }

  /** The sort is stable: the entries with any one key keep their order. */
  lemma {:induction false} SortByKeyIsStable(s: seq<(nat, DocumentJson)>, key: nat)
    ensures WithKey(SortByKey(s), key) == WithKey(s, key)
  {
    if |s| > 0 {
      SortByKeyIsStable(s[1..], key);
      InsertByKeyWithKey(s[0], SortByKey(s[1..]), key);
    }
  }

  /** The second component of every pair. */
  function Values(s: seq<(nat, DocumentJson)>): seq<DocumentJson>
  {
    seq(|s|, k requires 0 <= k < |s| => s[k].1)
  }

  /** What `get_document_by_file_id` computes from the Documents table. */
  function DocumentsByFileId(docs: seq<DocRow>, fileId: string, batchSize: nat): Result<Option<seq<DocumentJson>>, DocError>
  {
    var matching := if batchSize == 0 then [] else DocsOfFile(docs, fileId);
    match Tagged(fileId, matching)
    case Failure(e) => Failure(e)
    case Success(entries) =>
      if |entries| == 0 then Success(None)
      else
        match Keyed(entries)
        case Failure(e) => Failure(e)
        case Success(keyed) => Success(Some(Values(SortByKey(keyed))))
  }

  /** `entry` is `doc` after the rebuild: keyed by the integer value of the
      doc id's suffix, its json carrying chunk_id '<file_id>_<suffix>'. */
  predicate RebuiltFrom(fileId: string, doc: DocRow, entry: (nat, DocumentJson))
  {
    && SecondField(doc.docId).Some?
    && ParseInt(SecondField(doc.docId).value) == Some(entry.0)
    && entry.1 == WithChunkId(doc.json, fileId + "_" + SecondField(doc.docId).value)
  }

  /** When every matching document has a numeric suffix, the result lists,
      ordered by that number, the matching documents' json, each with its
      chunk_id rebuilt. */
  lemma DocumentsByFileIdContents(docs: seq<DocRow>, fileId: string, batchSize: nat)
    requires batchSize > 0 && |DocsOfFile(docs, fileId)| > 0
    ensures var m := DocsOfFile(docs, fileId);
            var t := Tagged(fileId, m);
            t.Success? && Keyed(t.value).Success? ==>
              var sorted := SortByKey(Keyed(t.value).value);
              && DocumentsByFileId(docs, fileId, batchSize) == Success(Some(Values(sorted)))
              && SortedByKey(sorted)
              && |sorted| == |m|
              && (forall i :: 0 <= i < |sorted| ==> exists k :: 0 <= k < |m| && RebuiltFrom(fileId, m[k], sorted[i]))
              && var keyed := Keyed(t.value).value;
                 && |keyed| == |m|
                 && (forall k :: 0 <= k < |m| ==> RebuiltFrom(fileId, m[k], keyed[k]))
                 && multiset(sorted) == multiset(keyed)
  {
    var m := DocsOfFile(docs, fileId);
    var t := Tagged(fileId, m);
    if t.Success? && Keyed(t.value).Success? {
      var keyed := Keyed(t.value).value;
      KeyedRebuilt(fileId, m, t.value, keyed);
      var sorted := SortByKey(keyed);
      PermutedRebuilt(fileId, m, keyed, sorted);
      DocumentsByFileIdSorted(docs, fileId, batchSize, t.value, keyed);
    }
  }

  /** With some documents matching and tagging and keying succeeding, the
      result is the sorted entries' json. */
  lemma DocumentsByFileIdSorted(docs: seq<DocRow>, fileId: string, batchSize: nat,
                                entries: seq<(string, DocumentJson)>, keyed: seq<(nat, DocumentJson)>)
    requires batchSize > 0 && |DocsOfFile(docs, fileId)| > 0
    requires Tagged(fileId, DocsOfFile(docs, fileId)) == Success(entries) && Keyed(entries) == Success(keyed)
    ensures DocumentsByFileId(docs, fileId, batchSize) == Success(Some(Values(SortByKey(keyed))))
  {
    TaggedContents(fileId, DocsOfFile(docs, fileId));
  }

  /** A permutation of the rebuilt documents holds only rebuilt documents,
      as many as there are matches. */
  lemma PermutedRebuilt(fileId: string, m: seq<DocRow>, rebuilt: seq<(nat, DocumentJson)>,
                        sorted: seq<(nat, DocumentJson)>)
    requires |rebuilt| == |m| && forall k :: 0 <= k < |m| ==> RebuiltFrom(fileId, m[k], rebuilt[k])
    requires multiset(sorted) == multiset(rebuilt)
    ensures |sorted| == |m|
    ensures forall i :: 0 <= i < |sorted| ==> exists k :: 0 <= k < |m| && RebuiltFrom(fileId, m[k], sorted[i])
  {
    assert |multiset(sorted)| == |multiset(rebuilt)|;
    forall i | 0 <= i < |sorted|
      ensures exists k :: 0 <= k < |m| && RebuiltFrom(fileId, m[k], sorted[i])
    {
      assert sorted[i] in multiset(rebuilt);
      var k :| 0 <= k < |rebuilt| && rebuilt[k] == sorted[i];
      assert RebuiltFrom(fileId, m[k], rebuilt[k]);
    }
  }

  /** Tagging then keying rebuilds each document in place. */
  lemma KeyedRebuilt(fileId: string, m: seq<DocRow>, entries: seq<(string, DocumentJson)>,
                     keyed: seq<(nat, DocumentJson)>)
    requires Tagged(fileId, m) == Success(entries) && Keyed(entries) == Success(keyed)
    ensures |keyed| == |m| && forall k :: 0 <= k < |m| ==> RebuiltFrom(fileId, m[k], keyed[k])
  {
    TaggedContents(fileId, m);
  }

  /** Nothing is returned exactly when no document matches (or pages are
      empty); otherwise every matching document is returned, once. */
  lemma DocumentsByFileIdNone(docs: seq<DocRow>, fileId: string, batchSize: nat)
    ensures DocumentsByFileId(docs, fileId, batchSize) == Success(None)
            <==> batchSize == 0 || |DocsOfFile(docs, fileId)| == 0
    ensures DocumentsByFileId(docs, fileId, batchSize).Success? && batchSize > 0 && |DocsOfFile(docs, fileId)| > 0 ==>
              |DocumentsByFileId(docs, fileId, batchSize).value.value| == |DocsOfFile(docs, fileId)|
  {
    var matching := if batchSize == 0 then [] else DocsOfFile(docs, fileId);
    var t := Tagged(fileId, matching);
    TaggedContents(fileId, matching);
    if t.Success? && |t.value| > 0 {
      var k := Keyed(t.value);
      if k.Success? {
        assert |multiset(SortByKey(k.value))| == |multiset(k.value)|;
      }
    }
  }

  /** The two ways the rebuild can raise: IndexError exactly when some
      matching doc id has no '_'; ValueError exactly when every one has one
      but some second field is not a decimal number. */
  lemma DocumentsByFileIdErrors(docs: seq<DocRow>, fileId: string, batchSize: nat)
    ensures var m := DocsOfFile(docs, fileId);
            DocumentsByFileId(docs, fileId, batchSize) == Failure(IndexError) <==>
              batchSize > 0 && exists k :: 0 <= k < |m| && '_' !in m[k].docId
    ensures var m := DocsOfFile(docs, fileId);
            DocumentsByFileId(docs, fileId, batchSize) == Failure(ValueError) <==>
              && batchSize > 0
              && (forall k :: 0 <= k < |m| ==> '_' in m[k].docId)
              && exists k :: 0 <= k < |m| && '_' in m[k].docId && !Decimal(SecondField(m[k].docId).value)
  {
    var m := DocsOfFile(docs, fileId);
    var matching := if batchSize == 0 then [] else m;
    var t := Tagged(fileId, matching);
    TaggedContents(fileId, matching);
    if batchSize > 0 && t.Success? {
      var entries := t.value;
      var keyed := Keyed(entries);
      forall k | 0 <= k < |m|
        ensures '_' in m[k].docId && SecondField(m[k].docId).value == entries[k].0
      {
      }
      if exists k :: 0 <= k < |m| && '_' in m[k].docId && !Decimal(SecondField(m[k].docId).value) {
        var k :| 0 <= k < |m| && '_' in m[k].docId && !Decimal(SecondField(m[k].docId).value);
        assert ParseInt(entries[k].0).None?;
      }
      if keyed.Failure? {
        var k :| 0 <= k < |entries| && ParseInt(entries[k].0).None?;
        assert !Decimal(SecondField(m[k].docId).value);
      }
    }
  }

  class KnowledgeBaseManager {
    const poolSize: nat
    var usedCnx: int
    var freeCnx: int
    const db: Database

    /** The pool counters account for every connection of the pool. */
    ghost predicate Valid()
      reads this
    {
      usedCnx >= 0 && freeCnx + usedCnx == poolSize
    }

    constructor (poolSize: nat, db: Database)
      ensures Valid() && usedCnx == 0 && freeCnx == poolSize
      ensures this.poolSize == poolSize && this.db == db
    {
      this.poolSize := poolSize;
      this.db := db;
      usedCnx := 0;
      freeCnx := poolSize;
    }

    /** `execute_query_`: take a connection from the pool (or fail to), run
        the statement, hand back the fetched rows or the row count, and give
        the connection back. */
    method ExecuteQuery<R>(gotConnection: bool, execution: Execution<R>, fetch: bool, check: bool)
      returns (result: QueryResult<R>)
      requires Valid()
      modifies this`usedCnx, this`freeCnx
      ensures Valid() && usedCnx == old(usedCnx) && freeCnx == old(freeCnx)
      ensures !gotConnection || execution.Failed? ==> result == NoResult
      ensures gotConnection && execution.Executed? ==>
                result == if fetch then Rows(execution.rows)
                          else if check then RowCount(execution.rowCount)
                          else NoResult
    {
      if !gotConnection {
        return NoResult;
      }
      usedCnx := usedCnx + 1;
      freeCnx := freeCnx - 1;
      result := NoResult;
      match execution {
        case Executed(rows, rowCount) =>
          if fetch {
            result := Rows(rows);
          } else if check {
            result := RowCount(rowCount);
          }
        case Failed(_) =>
      }
      // The `finally` clause: the connection goes back to the pool.
      usedCnx := usedCnx - 1;
      freeCnx := freeCnx + 1;
    }

    /** `check_kb_exist`: which of the given knowledge bases are not live
        knowledge bases of the user. */
    function CheckKbExist(userId: string, kbIds: seq<string>): (r: set<string>)
      reads db
      ensures kbIds == [] ==> r == {}
      ensures forall id :: id in r <==> id in kbIds && !LiveKbOf(db.knowledgeBases, id, userId)
    {
      if |kbIds| == 0 then {}
      else
        ValidKbIdsAreLive(db.knowledgeBases, userId, kbIds);
        (set k | 0 <= k < |kbIds| :: kbIds[k]) - ValidKbIds(db.knowledgeBases, userId, kbIds)
    }

    /** `is_deleted_file`: whether the file's row is marked deleted; a file
        with no row is not deleted. */
    function IsDeletedFile(fileId: string): (r: bool)
      requires db.Valid()
      reads db
      ensures r <==> exists k :: 0 <= k < |db.files| && db.files[k].fileId == fileId && db.files[k].deleted
      ensures (forall k :: 0 <= k < |db.files| ==> db.files[k].fileId != fileId) ==> !r
    {
      var files := db.files;
      var result := Filter(files, (f: FileRow) => f.fileId == fileId);
      if |result| > 0 then
        assert forall k :: 0 <= k < |files| && files[k].fileId == fileId ==> files[k] == result[0] by {
          var j :| 0 <= j < |files| && files[j] == result[0];
          assert forall k :: 0 <= k < |files| && files[k].fileId == fileId ==> k == j;
        }
        result[0].deleted
      else
        false
    }

    /** `check_file_exist_by_name`: the names are sent in consecutive batches
        of at most 100 and the batches' results are concatenated. */
    method CheckFileExistByName(userId: string, kbId: string, fileNames: seq<string>) returns (results: seq<FileRow>)
      ensures results == FilesNamedByBatch(db.files, db.knowledgeBases, userId, kbId, Batches(fileNames, BatchSize))
      ensures forall x :: x in results <==> x in FilesNamed(db.files, db.knowledgeBases, userId, kbId, fileNames)
    {
      var files, kbs := db.files, db.knowledgeBases;
      results := [];
      var i := 0;
      while i < |fileNames|
        invariant 0 <= i <= |fileNames|
        invariant results + FilesNamedByBatch(files, kbs, userId, kbId, Batches(fileNames[i..], BatchSize))
                  == FilesNamedByBatch(files, kbs, userId, kbId, Batches(fileNames, BatchSize))
      {
        var j := if i + BatchSize <= |fileNames| then i + BatchSize else |fileNames|;
        var batch := fileNames[i..j];
        FilesNamedByBatchFrom(files, kbs, userId, kbId, fileNames, i, results);
        var batchResult := FilesNamed(files, kbs, userId, kbId, batch);
        results := results + batchResult;
        i := j;
      }
      assert fileNames[i..] == [];
      forall x
        ensures x in results <==> x in FilesNamed(files, kbs, userId, kbId, fileNames)
      {
        FilesNamedByBatchMembership(files, kbs, userId, kbId, Batches(fileNames, BatchSize), x);
      }
    }

    /** `delete_faqs`: the ids are deleted in consecutive batches of at most
        100; the total is the sum of the batches' row counts. */
    method DeleteFaqs(faqIds: seq<string>) returns (totalDeleted: nat)
      modifies db`faqs
      ensures db.faqs == Without(old(db.faqs), FaqIdOf, faqIds)
      ensures forall f :: f in db.faqs <==> f in old(db.faqs) && f.faqId !in faqIds
      ensures totalDeleted == |old(db.faqs)| - |db.faqs|
    {
      totalDeleted := 0;
      WithoutNothing(db.faqs, FaqIdOf);
      var i := 0;
      while i < |faqIds|
        invariant 0 <= i <= |faqIds|
        invariant db.faqs == Without(old(db.faqs), FaqIdOf, faqIds[..i])
        invariant totalDeleted == |old(db.faqs)| - |db.faqs|
      {
        var j := if i + BatchSize <= |faqIds| then i + BatchSize else |faqIds|;
        var batch := faqIds[i..j];
        var rowCount := db.DeleteFaqs(batch);
        totalDeleted := totalDeleted + rowCount;
        WithoutTwice(old(db.faqs), FaqIdOf, faqIds[..i], batch);
        assert faqIds[..j] == faqIds[..i] + batch;
        i := j;
      }
      assert faqIds[..i] == faqIds;
      forall f
        ensures f in db.faqs <==> f in old(db.faqs) && f.faqId !in faqIds
      {
        InWithout(old(db.faqs), FaqIdOf, faqIds, f);
      }
    }

    /** `delete_documents`: for each file, look up the ids of its documents
        with a LIKE and delete them in batches of at most 100; the result is
        the sum of the batches' row counts. */
    method DeleteDocuments(fileIds: seq<string>) returns (totalDeleted: nat)
      modifies db`documents
      ensures db.documents == Filter(old(db.documents), (d: DocRow) => !DocOfAny(d.docId, fileIds))
      ensures totalDeleted == |old(db.documents)| - |db.documents|
    {
      totalDeleted := 0;
      FilterCongruent(db.documents, (d: DocRow) => true, (d: DocRow) => !DocOfAny(d.docId, fileIds[..0]));
      FilterAll(db.documents);
      var n := 0;
      while n < |fileIds|
        invariant 0 <= n <= |fileIds|
        invariant db.documents == Filter(old(db.documents), (d: DocRow) => !DocOfAny(d.docId, fileIds[..n]))
        invariant totalDeleted == |old(db.documents)| - |db.documents|
      {
        var fileId := fileIds[n];
        var start := db.documents;
        var docIds := DocIds(DocsOfFile(start, fileId));
        var deleted := DeleteIds(docIds);
        totalDeleted := totalDeleted + deleted;
        DeletingFoundDocs(start, fileId);
        forall d: DocRow
          ensures !DocOfAny(d.docId, fileIds[..n + 1]) == (!DocOfAny(d.docId, fileIds[..n]) && !DocOfFile(d.docId, fileId))
        {
          DocOfAnyExtend(d.docId, fileIds, n);
        }
        FilterTwice(old(db.documents), (d: DocRow) => !DocOfAny(d.docId, fileIds[..n]),
                    (d: DocRow) => !DocOfFile(d.docId, fileId), (d: DocRow) => !DocOfAny(d.docId, fileIds[..n + 1]));
        n := n + 1;
      }
      assert fileIds[..n] == fileIds;
    }

    /** The inner loop of `delete_documents`: `DELETE FROM Documents WHERE
        doc_id IN (...)` for consecutive batches of at most 100 ids. */
    method DeleteIds(docIds: seq<string>) returns (deleted: nat)
      modifies db`documents
      ensures db.documents == Without(old(db.documents), DocIdOf, docIds)
      ensures deleted == |old(db.documents)| - |db.documents|
    {
      deleted := 0;
      WithoutNothing(db.documents, DocIdOf);
      var i := 0;
      while i < |docIds|
        invariant 0 <= i <= |docIds|
        invariant db.documents == Without(old(db.documents), DocIdOf, docIds[..i])
        invariant deleted == |old(db.documents)| - |db.documents|
      {
        var j := if i + BatchSize <= |docIds| then i + BatchSize else |docIds|;
        var batch := docIds[i..j];
        var rowCount := db.DeleteDocuments(batch);
        deleted := deleted + rowCount;
        WithoutTwice(old(db.documents), DocIdOf, docIds[..i], batch);
        assert docIds[..j] == docIds[..i] + batch;
        i := j;
      }
      assert docIds[..i] == docIds;
    }

    /** `update_file_status`: `UPDATE File SET status = ... WHERE file_id = ...`. */
    method UpdateFileStatus(fileId: string, status: Status)
      requires db.Valid()
      modifies db`files
      ensures db.Valid() && |db.files| == |old(db.files)|
      ensures forall k :: 0 <= k < |db.files| ==>
                db.files[k] == if old(db.files)[k].fileId == fileId then old(db.files)[k].(status := status)
                               else old(db.files)[k]
    {
      db.UpdateFiles((f: FileRow) => f.fileId == fileId, (f: FileRow) => f.(status := status));
    }

    /** `from_status_to_status`: the listed files that are in `fromStatus`
        move to `toStatus`; every other row keeps its status. */
    method FromStatusToStatus(fileIds: seq<string>, fromStatus: Status, toStatus: Status)
      requires db.Valid()
      modifies db`files
      ensures db.Valid() && |db.files| == |old(db.files)|
      ensures forall k :: 0 <= k < |db.files| ==>
                db.files[k] == if old(db.files)[k].fileId in fileIds && old(db.files)[k].status == fromStatus
                               then old(db.files)[k].(status := toStatus)
                               else old(db.files)[k]
    {
      db.UpdateFiles((f: FileRow) => f.fileId in fileIds && f.status == fromStatus,
                     (f: FileRow) => f.(status := toStatus));
    }

    /** `get_files`: with a file id, one query; without, pages of 100 rows
        until the first empty page. Either way the result is every matching
        row, in storage order; the user id plays no part. */
    method GetFiles(userId: string, kbId: string, fileId: Option<string>) returns (allFiles: seq<FileRow>)
      ensures fileId.Some? ==>
                allFiles == Filter(LiveFilesOfKb(db.files, kbId), (f: FileRow) => f.fileId == fileId.value)
      ensures fileId.None? ==> allFiles == LiveFilesOfKb(db.files, kbId)
    {
      var matching := LiveFilesOfKb(db.files, kbId);
      if fileId.Some? {
        return Filter(matching, (f: FileRow) => f.fileId == fileId.value);
      }
      allFiles := [];
      var offset := 0;
      while true
        invariant offset <= |matching| + PageSize
        invariant allFiles == matching[..Min(offset, |matching|)]
        decreases |matching| + PageSize - offset
      {
        var files := Page(matching, offset, PageSize);
        if |files| == 0 {
          assert matching[..|matching|] == matching;
          break;
        }
        PrefixThenPage(matching, offset, PageSize);
        allFiles := allFiles + files;
        offset := offset + PageSize;
      }
    }

    /** `get_chunk_size`, as written: walks the ids in slices of 100 and stops
        at the first slice that finds no file, even when later slices would. */
    method GetChunkSizeAsWritten(fileIds: seq<string>) returns (chunkSizes: seq<int>)
      ensures chunkSizes == ChunkSizes(RowsUntilEmptySlice(db.files, fileIds, 0))
    {
      var files := db.files;
      var allRows: seq<FileRow> := [];
      var offset := 0;
      while true
        invariant allRows + RowsUntilEmptySlice(files, fileIds, offset) == RowsUntilEmptySlice(files, fileIds, 0)
        decreases |fileIds| - offset
      {
        var sublist := Page(fileIds, offset, PageSize);
        if |sublist| == 0 {
          break;
        }
        var rows := RowsWithIds(files, sublist);
        if |rows| == 0 {
          assert allRows + [] == allRows;
          break;
        }
        RowsUntilEmptySliceStep(files, fileIds, offset, allRows);
        allRows := allRows + rows;
        offset := offset + PageSize;
      }
      chunkSizes := ChunkSizes(allRows);
    }

    /** `get_chunk_size` as evidently intended: every slice of 100 ids is
        queried, so the chunk size of every listed file is returned. */
    method GetChunkSize(fileIds: seq<string>) returns (chunkSizes: seq<int>)
      ensures chunkSizes == ChunkSizes(RowsInSlices(db.files, fileIds, 0))
      ensures forall k :: 0 <= k < |db.files| && db.files[k].fileId in fileIds ==> db.files[k].chunkSize in chunkSizes
      ensures forall c :: c in chunkSizes ==>
                exists k :: 0 <= k < |db.files| && db.files[k].fileId in fileIds && db.files[k].chunkSize == c
    {
      var allRows := ReadAllSlices(fileIds);
      chunkSizes := ChunkSizes(allRows);
      ChunkSizesCoverListed(db.files, fileIds);
    }

    /** The corrected slice walk: the rows found by every slice of 100 ids. */
    method ReadAllSlices(fileIds: seq<string>) returns (allRows: seq<FileRow>)
      ensures allRows == RowsInSlices(db.files, fileIds, 0)
    {
      var files := db.files;
      allRows := [];
      var offset := 0;
      while true
        invariant allRows + RowsInSlices(files, fileIds, offset) == RowsInSlices(files, fileIds, 0)
        decreases |fileIds| - offset
      {
        var sublist := Page(fileIds, offset, PageSize);
        if |sublist| == 0 {
          assert allRows + [] == allRows;
          break;
        }
        var rows := RowsWithIds(files, sublist);
        RowsInSlicesStep(files, fileIds, offset, allRows);
        allRows := allRows + rows;
        offset := offset + PageSize;
      }
    }

    /** `get_total_status_by_date`: the grouped counts of the user's files,
        folded into a date -> status -> count map. */
    method GetTotalStatusByDate(userId: string) returns (filesByDate: map<string, map<Status, nat>>)
      ensures filesByDate == GroupByDate(StatusCounts(db.files, userId))
    {
      var result := StatusCounts(db.files, userId);
      filesByDate := FoldByDate(result);
    }

    /** The loop of `get_total_status_by_date`: `files_by_date[date][status] =
        number` for each row in turn. */
    method FoldByDate(result: seq<StatusCount>) returns (filesByDate: map<string, map<Status, nat>>)
      ensures filesByDate == GroupByDate(result)
    {
      filesByDate := map[];
      for i := 0 to |result|
        invariant filesByDate == GroupByDate(result[..i])
      {
        var row := result[i];
        assert result[..i + 1][..i] == result[..i];
        var statusDict := if row.date in filesByDate then filesByDate[row.date] else map[];
        filesByDate := filesByDate[row.date := statusDict[row.status := row.number]];
      }
      assert result[..|result|] == result;
    }

    /** `get_document_by_file_id`: the file's documents, read in pages of
        `batchSize`, each with its chunk_id rebuilt, sorted by the integer
        value of their doc-id suffix; `None` when there are none. */
    method GetDocumentByFileId(fileId: string, batchSize: nat) returns (r: Result<Option<seq<DocumentJson>>, DocError>)
      ensures r == DocumentsByFileId(db.documents, fileId, batchSize)
    {
      var pages := ReadDocumentPages(fileId, batchSize);
      if batchSize > 0 {
        var matching := DocsOfFile(db.documents, fileId);
        TaggedPagesIsTagged(fileId, matching, 0, batchSize);
        assert matching[Min(0, |matching|)..] == matching;
      }
      if pages.Failure? {
        return Failure(pages.error);
      }
      var allJsonDatas := pages.value;
      if |allJsonDatas| == 0 {
        return Success(None);
      }
      var keyed := Keyed(allJsonDatas);
      if keyed.Failure? {
        return Failure(keyed.error);
      }
      var sorted := SortByKey(keyed.value);
      return Success(Some(Values(sorted)));
    }

    /** The paging loop of `get_document_by_file_id`: pages of `batchSize`
        matching documents, each tagged, until the first empty page. */
    method ReadDocumentPages(fileId: string, batchSize: nat) returns (r: Result<seq<(string, DocumentJson)>, DocError>)
      ensures r == TaggedPages(fileId, DocsOfFile(db.documents, fileId), 0, batchSize)
    {
      r := ReadPages(TagFn(fileId), DocsOfFile(db.documents, fileId), batchSize);
    }
  }

  /** Keeping every row keeps the table. */
  lemma {:induction false} FilterAll<T>(s: seq<T>)
    ensures Filter(s, (x: T) => true) == s
  {
    if |s| > 0 {
      FilterAll(s[1..]);
    }
  }
}
