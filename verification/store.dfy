/** The relational store shared by the ingestion workers and the knowledge-base
    manager, as in-memory tables. Each table is a sequence of rows in storage
    order; a statement is a filter over a table (`SELECT ... WHERE`), a pointwise
    rewrite of the rows a filter selects (`UPDATE ... WHERE`) or the removal of
    those rows (`DELETE ... WHERE`). */
module Store {
  import opened Util

  /** The File.status column: gray = waiting, yellow = being processed,
      green = ingested, red = failed. */
  datatype Status = Gray | Yellow | Green | Red

  /** A row of the File table. `id` is the auto-increment primary key and
      `timestamp` the VARCHAR upload time ('YYYYMMDDHHMM'). */
  datatype FileRow = FileRow(
    id: nat,
    fileId: string,
    userId: string,
    kbId: string,
    fileName: string,
    status: Status,
    msg: string,
    deleted: bool,
    fileSize: int,
    contentLength: int,
    chunksNumber: int,
    chunkSize: int,
    timestamp: string)

  /** A row of the KnowledgeBase table. */
  datatype KbRow = KbRow(kbId: string, userId: string, kbName: string, deleted: bool)

  /** A row of the Faqs table. */
  datatype FaqRow = FaqRow(faqId: string, userId: string, kbId: string, question: string, answer: string)

  function FaqIdOf(f: FaqRow): string
  {
    f.faqId
  }

  /** The decoded `json_data` of a Documents row: its `kwargs` object. */
  datatype DocumentJson = DocumentJson(kwargs: map<string, string>)

  /** A row of the Documents table; `docId` is '<file_id>_<n>' for the n-th chunk of a file. */
  datatype DocRow = DocRow(docId: string, json: DocumentJson)

  function DocIdOf(d: DocRow): string
  {
    d.docId
  }

  /** The order of the VARCHAR timestamp column: character by character, a
      proper prefix first. */
  predicate TimestampLeq(a: string, b: string)
    decreases |a|
  {
    |a| == 0 || (|b| > 0 && (a[0] < b[0] || (a[0] == b[0] && TimestampLeq(a[1..], b[1..]))))
  }

  lemma {:induction false} TimestampLeqTotal(a: string, b: string)
    ensures TimestampLeq(a, b) || TimestampLeq(b, a)
    decreases |a|
  {
    if |a| > 0 && |b| > 0 && a[0] == b[0] {
      TimestampLeqTotal(a[1..], b[1..]);
    }
  }

  lemma {:induction false} TimestampLeqTransitive(a: string, b: string, c: string)
    requires TimestampLeq(a, b) && TimestampLeq(b, c)
    ensures TimestampLeq(a, c)
    decreases |a|
  {
    if |a| > 0 && a[0] == b[0] && b[0] == c[0] {
      TimestampLeqTransitive(a[1..], b[1..], c[1..]);
    }
  }

  /** The primary key of File: no two rows share an id. */
  predicate UniqueIds(rows: seq<FileRow>)
  {
    forall a, b :: 0 <= a < b < |rows| ==> rows[a].id != rows[b].id
  }

  /** The UNIQUE constraint on File.file_id. */
  predicate UniqueFileIds(rows: seq<FileRow>)
  {
    forall a, b :: 0 <= a < b < |rows| ==> rows[a].fileId != rows[b].fileId
  }

  class Database {
    var files: seq<FileRow>
    var knowledgeBases: seq<KbRow>
    var faqs: seq<FaqRow>
    var documents: seq<DocRow>

    /** The store's own constraints that the model relies on. */
    ghost predicate Valid()
      reads this
    {
      UniqueIds(files) && UniqueFileIds(files)
    }

    constructor (files: seq<FileRow>, knowledgeBases: seq<KbRow>, faqs: seq<FaqRow>, documents: seq<DocRow>)
      requires UniqueIds(files) && UniqueFileIds(files)
      ensures Valid()
      ensures this.files == files && this.knowledgeBases == knowledgeBases
      ensures this.faqs == faqs && this.documents == documents
    {
      this.files := files;
      this.knowledgeBases := knowledgeBases;
      this.faqs := faqs;
      this.documents := documents;
    }

    /** `UPDATE File SET ... WHERE ...`: every row that `where` selects is
        rewritten by `update`, every other row is kept; no row is added,
        removed or moved. */
    method UpdateFiles(where: FileRow -> bool, update: FileRow -> FileRow)
      requires Valid()
      requires forall r :: update(r).id == r.id && update(r).fileId == r.fileId
      modifies this`files
      ensures Valid()
      ensures |files| == |old(files)|
      ensures forall k :: 0 <= k < |files| ==>
                files[k] == if where(old(files)[k]) then update(old(files)[k]) else old(files)[k]
    {
      var before := files;
      files := seq(|before|, k requires 0 <= k < |before| =>
                 if where(before[k]) then update(before[k]) else before[k]);
    }

    /** `DELETE FROM Faqs WHERE faq_id IN (ids)`; the result is the cursor's row count. */
    method DeleteFaqs(ids: seq<string>) returns (rowCount: nat)
      modifies this`faqs
      ensures faqs == Without(old(faqs), FaqIdOf, ids)
      ensures rowCount == |old(faqs)| - |faqs|
    {
      var before := faqs;
      faqs := Without(before, FaqIdOf, ids);
      rowCount := |before| - |faqs|;
    }

    /** `DELETE FROM Documents WHERE doc_id IN (ids)`; the result is the cursor's row count. */
    method DeleteDocuments(ids: seq<string>) returns (rowCount: nat)
      modifies this`documents
      ensures documents == Without(old(documents), DocIdOf, ids)
      ensures rowCount == |old(documents)| - |documents|
    {
      var before := documents;
      documents := Without(before, DocIdOf, ids);
      rowCount := |before| - |documents|;
    }
  }

  /** The table after `UPDATE File SET msg = m WHERE file_id = fileId` for
      each m of msgs in turn: the rows of that file carry the last message. */
  function WithMsg(rows: seq<FileRow>, fileId: string, msgs: seq<string>): seq<FileRow>
  {
    seq(|rows|, k requires 0 <= k < |rows| =>
      if rows[k].fileId == fileId && |msgs| > 0 then rows[k].(msg := msgs[|msgs| - 1]) else rows[k])
  }

  /** No message written leaves the table as it was. */
  lemma WithNoMsg(rows: seq<FileRow>, fileId: string, msgs: seq<string>)
    requires |msgs| == 0
    ensures WithMsg(rows, fileId, msgs) == rows
  {
  }

  /** Writing the next message of a run overwrites the earlier ones. */
  lemma WithMsgStep(rows: seq<FileRow>, fileId: string, msgs: seq<string>, j: nat)
    requires j < |msgs|
    ensures WithMsg(WithMsg(rows, fileId, msgs[..j]), fileId, [msgs[j]]) == WithMsg(rows, fileId, msgs[..j + 1])
  {
  }

  /** Under the unique file_id, the messages land in row i only. */
  lemma WithMsgOneRow(rows: seq<FileRow>, i: nat, msgs: seq<string>)
    requires UniqueFileIds(rows) && i < |rows|
    ensures WithMsg(rows, rows[i].fileId, msgs)
            == rows[i := if |msgs| > 0 then rows[i].(msg := msgs[|msgs| - 1]) else rows[i]]
  {
  }

  /** Under the primary key, an `UPDATE ... WHERE id = <id of row i>` touches row i only. */
  lemma UpdateByIdTouchesOneRow(before: seq<FileRow>, after: seq<FileRow>, i: nat, newRow: FileRow)
    requires UniqueIds(before) && i < |before| && |after| == |before|
    requires after[i] == newRow
    requires forall k :: 0 <= k < |after| && before[k].id != before[i].id ==> after[k] == before[k]
    ensures after == before[i := newRow]
  {
  }
}
