/** The file-ingestion worker of the insert-files service: each of W worker
    processes polls the File table, claims the oldest waiting file of the shard
    it serves this minute, runs the parse and vector-insert stages on it and
    writes the outcome back.

    The two pipeline stages (splitting the file into documents, inserting the
    documents into the vector store) are not modelled; what each stage did is an
    input: a parse either yields the page lengths of the documents, times out or
    raises, and an insert either yields a chunk count, times out or raises. Where
    an exception escapes the worker's store access is an input as well. */
module InsertWorker {
  import opened Util
  import opened Store

  /** Deadlines of the two stages, in seconds. */
  const ParseTimeoutSeconds: nat := 300
  const InsertTimeoutSeconds: nat := 300

  /** Sleep after an iteration that found nothing or failed, and after one that
      recorded an outcome. */
  const IdleSleep: real := 3.0
  const BusySleep: real := 0.1

  // ---------------------------------------------------------------------------
  // Shard assignment

  /** The shard a worker serves at a given minute of the hour: the worker's
      ordinal shifted by how many whole pool-sizes of minutes have passed. */
  function Shard(workerId: nat, minute: nat, workers: nat): (s: nat)
    requires workers > 0
    ensures s < workers
  {
    (workerId + minute / workers) % workers
  }

  lemma {:induction false} MulAtLeast(w: int, d: int)
    requires w > 0 && d >= 1
    ensures w * d >= w
    decreases d
  {
    if d > 1 {
      MulAtLeast(w, d - 1);
      assert w * d == w * (d - 1) + w;
    }
  }

  /** A remainder is determined by any quotient/remainder decomposition. */
  lemma ModUnique(a: int, w: int, q: int, r: int)
    requires w > 0 && 0 <= r < w && a == w * q + r
    ensures a % w == r
  {
    var q2, r2 := a / w, a % w;
    assert a == w * q2 + r2;
    if q > q2 {
      MulAtLeast(w, q - q2);
      assert false;
    } else if q < q2 {
      MulAtLeast(w, q2 - q);
      assert false;
    }
  }

  /** The worker that serves shard s at the given minute. */
  function WorkerForShard(s: nat, minute: nat, workers: nat): (k: nat)
    requires s < workers
    ensures k < workers && Shard(k, minute, workers) == s
  {
    var q := minute / workers;
    var r := q % workers;
    var k := if s >= r then s - r else s + workers - r;
    assert q == workers * (q / workers) + r;
    if s >= r then
      ModUnique(k + q, workers, q / workers, s);
      k
    else
      ModUnique(k + q, workers, q / workers + 1, s);
      k
  }

  /** The shards served by workers 0..W-1 at a given minute. */
  function ServedShards(minute: nat, workers: nat): set<nat>
    requires workers > 0
  {
    set k | 0 <= k < workers :: Shard(k, minute, workers)
  }

  /** For a fixed minute the workers 0..W-1 serve pairwise different shards,
      and together they serve every shard 0..W-1: the assignment is a bijection. */
  /** Two workers never poll the same shard in the same minute. */
  lemma ShardInjective(a: nat, b: nat, minute: nat, workers: nat)
    requires a < workers && b < workers
    requires Shard(a, minute, workers) == Shard(b, minute, workers)
    ensures a == b
  {
    var q := minute / workers;
    var s := Shard(a, minute, workers);
    var ta, tb := (a + q) / workers, (b + q) / workers;
    assert a + q == workers * ta + s;
    assert b + q == workers * tb + s;
    var d := ta - tb;
    assert workers * ta == workers * tb + workers * d;
    if d >= 1 {
      MulAtLeast(workers, d);
    } else if d <= -1 {
      MulAtLeast(workers, -d);
    }
  }

  lemma ShardAssignmentIsBijective(minute: nat, workers: nat)
    requires workers > 0
    ensures forall a, b :: 0 <= a < workers && 0 <= b < workers && a != b ==>
              Shard(a, minute, workers) != Shard(b, minute, workers)
    ensures forall s: nat :: s in ServedShards(minute, workers) <==> s < workers
  {
    forall a, b | 0 <= a < workers && 0 <= b < workers && Shard(a, minute, workers) == Shard(b, minute, workers)
      ensures a == b
    {
      ShardInjective(a, b, minute, workers);
    }
    forall s: nat | s < workers
      ensures s in ServedShards(minute, workers)
    {
      var k := WorkerForShard(s, minute, workers);
      assert Shard(k, minute, workers) in ServedShards(minute, workers);
    }
  }

  // ---------------------------------------------------------------------------
  // Selection of the next file

  /** `status = 'gray' AND MOD(id, W) = shard AND deleted = 0`. */
  predicate Eligible(row: FileRow, workers: nat, shard: nat)
    requires workers > 0
  {
    row.status == Gray && row.id % workers == shard && !row.deleted
  }

  /** In every minute, a waiting, live file is selectable by exactly one of
      the W workers: the one whose shard in that minute is its id mod W. */
  lemma EligibleForOneWorker(row: FileRow, workers: nat, minute: nat)
    requires workers > 0 && row.status == Gray && !row.deleted
    ensures exists k: nat :: k < workers && Eligible(row, workers, Shard(k, minute, workers))
    ensures forall a: nat, b: nat ::
              (a < workers && b < workers && Eligible(row, workers, Shard(a, minute, workers))
               && Eligible(row, workers, Shard(b, minute, workers))) ==> a == b
  {
    var k := WorkerForShard(row.id % workers, minute, workers);
    assert Eligible(row, workers, Shard(k, minute, workers));
    forall a: nat, b: nat | a < workers && b < workers && Eligible(row, workers, Shard(a, minute, workers))
        && Eligible(row, workers, Shard(b, minute, workers))
      ensures a == b
    {
      ShardInjective(a, b, minute, workers);
    }
  }

  /** `SELECT ... WHERE <Eligible> ORDER BY timestamp ASC LIMIT 1`, as the index
      of the row found; among rows with equal timestamps the first in storage
      order is taken. */
  function OldestGray(rows: seq<FileRow>, workers: nat, shard: nat): (r: Option<nat>)
    requires workers > 0
    ensures r.None? <==> forall k :: 0 <= k < |rows| ==> !Eligible(rows[k], workers, shard)
    ensures r.Some? ==> r.value < |rows| && Eligible(rows[r.value], workers, shard)
    decreases |rows|
  {
    if |rows| == 0 then None
    else
      var rest := OldestGray(rows[1..], workers, shard);
      if Eligible(rows[0], workers, shard)
         && (rest.None? || TimestampLeq(rows[0].timestamp, rows[1 + rest.value].timestamp))
      then Some(0)
      else if rest.None? then None
      else Some(1 + rest.value)
  }

  /** The selected row is the oldest eligible one. */
  lemma {:induction false} OldestGrayIsOldest(rows: seq<FileRow>, workers: nat, shard: nat)
    requires workers > 0
    ensures var r := OldestGray(rows, workers, shard);
            r.Some? ==> forall k :: 0 <= k < |rows| && Eligible(rows[k], workers, shard) ==>
                          TimestampLeq(rows[r.value].timestamp, rows[k].timestamp)
    decreases |rows|
  {
    if |rows| > 0 {
      var r := OldestGray(rows, workers, shard);
      var rest := OldestGray(rows[1..], workers, shard);
      OldestGrayIsOldest(rows[1..], workers, shard);
      assert forall k :: 1 <= k < |rows| ==> rows[k] == rows[1..][k - 1];
      if r == Some(0) {
        TimestampLeqTotal(rows[0].timestamp, rows[0].timestamp);
        forall k | 1 <= k < |rows| && Eligible(rows[k], workers, shard)
          ensures TimestampLeq(rows[0].timestamp, rows[k].timestamp)
        {
          TimestampLeqTransitive(rows[0].timestamp, rows[1 + rest.value].timestamp, rows[k].timestamp);
        }
      } else if r.Some? {
        if Eligible(rows[0], workers, shard) {
          TimestampLeqTotal(rows[0].timestamp, rows[1 + rest.value].timestamp);
        }
      }
    }
  }

  // ---------------------------------------------------------------------------
  // Processing one file

  /** What the parse stage (`split_file_to_docs` under its deadline) did. */
  datatype ParseOutcome = Parsed(pageLengths: seq<nat>) | ParseTimeout | ParseError

  /** What the insert stage (`insert_documents` under its deadline) did. */
  datatype InsertOutcome = Inserted(chunks: nat) | InsertTimeout | InsertError

  /** The tuple `process_data` returns, with the vector-store deletions it issued. */
  datatype ProcessResult = ProcessResult(status: Status, contentLength: int, chunksNumber: int,
                                         msg: string, deletes: seq<string>)

  // The fixed messages of `process_data`. The longer texts are written as
  // concatenations of short literals, which keep the verification conditions small.
  const ParseTimeoutMsg: string := "split_file_to_docs" + " timeout: 300s"
  const ParseErrorMsg: string := "split_file_to_docs" + " error"
  const InsertTimeoutMsg: string := "milvus insert" + " timeout: 300s"
  const InsertErrorMsg: string := "milvus insert error"

  function TooLargeMsg(fileName: string, contentLength: nat, maxChars: nat): string
  {
    fileName + " content_length" + " too large, " + NatToString(contentLength)
    + " >= MaxLength(" + NatToString(maxChars) + ")"
  }

  function EmptyContentMsg(fileName: string): string
  {
    fileName + " content_length is 0," + " file content is empty" + " or The URL exists"
    + " anti-crawling" + " or requires login."
  }

  /** The vector-store filter that removes every chunk of a file. */
  function DeleteExprFor(fileId: string): string
  {
    "file_id == \"" + fileId + "\""
  }

  /** The parse produced content the insert stage accepts. */
  predicate AcceptedContent(parse: ParseOutcome, maxChars: nat)
  {
    parse.Parsed? && 0 < Sum(parse.pageLengths) <= maxChars
  }

  /** The outcome `process_data` returns for a file, given what its two stages
      did; `timeRecordJson` is the serialised timing record that becomes the
      message of a successful file. */
  function ProcessOutcome(fileId: string, fileName: string, parse: ParseOutcome, insert: InsertOutcome,
                          maxChars: nat, timeRecordJson: string): (r: ProcessResult)
    ensures r.status == Green || r.status == Red
    ensures r.status == Green <==> AcceptedContent(parse, maxChars) && insert.Inserted?
    ensures r.contentLength == if parse.Parsed? then Sum(parse.pageLengths) else -1
    ensures r.chunksNumber == if r.status == Green then insert.chunks else 0
    ensures r.deletes == if AcceptedContent(parse, maxChars) && insert.InsertTimeout?
                         then [DeleteExprFor(fileId)] else []
    ensures parse.ParseTimeout? ==> r.msg == ParseTimeoutMsg
    ensures parse.ParseError? ==> r.msg == ParseErrorMsg
    ensures parse.Parsed? && Sum(parse.pageLengths) > maxChars ==>
              r.msg == TooLargeMsg(fileName, Sum(parse.pageLengths), maxChars)
    ensures parse.Parsed? && Sum(parse.pageLengths) == 0 ==> r.msg == EmptyContentMsg(fileName)
    ensures AcceptedContent(parse, maxChars) && insert.InsertTimeout? ==> r.msg == InsertTimeoutMsg
    ensures AcceptedContent(parse, maxChars) && insert.InsertError? ==> r.msg == InsertErrorMsg
    ensures r.status == Green ==> r.msg == timeRecordJson
  {
    match parse
    case ParseTimeout => ProcessResult(Red, -1, 0, ParseTimeoutMsg, [])
    case ParseError => ProcessResult(Red, -1, 0, ParseErrorMsg, [])
    case Parsed(lengths) =>
      var contentLength := Sum(lengths);
      if contentLength > maxChars then
        ProcessResult(Red, contentLength, 0, TooLargeMsg(fileName, contentLength, maxChars), [])
      else if contentLength == 0 then
        ProcessResult(Red, contentLength, 0, EmptyContentMsg(fileName), [])
      else
        match insert
        case InsertTimeout => ProcessResult(Red, contentLength, 0, InsertTimeoutMsg, [DeleteExprFor(fileId)])
        case InsertError => ProcessResult(Red, contentLength, 0, InsertErrorMsg, [])
        case Inserted(chunks) => ProcessResult(Green, contentLength, chunks, timeRecordJson, [])
  }

  /** Content of exactly MAX_CHARS characters is not rejected for its length. */
  lemma MaxCharsIsAccepted(fileId: string, fileName: string, lengths: seq<nat>, insert: InsertOutcome,
                           maxChars: nat, timeRecordJson: string)
    requires maxChars > 0 && Sum(lengths) == maxChars
    ensures var r := ProcessOutcome(fileId, fileName, Parsed(lengths), insert, maxChars, timeRecordJson);
            r.status == Green <==> insert.Inserted?
  {
  }

  /** A parse whose documents are all empty is rejected as empty content. */
  lemma {:induction false} EmptyPagesAreRejected(fileId: string, fileName: string, lengths: seq<nat>,
                                                 insert: InsertOutcome, maxChars: nat, timeRecordJson: string)
    requires forall k :: 0 <= k < |lengths| ==> lengths[k] == 0
    ensures var r := ProcessOutcome(fileId, fileName, Parsed(lengths), insert, maxChars, timeRecordJson);
            r.status == Red && r.contentLength == 0 && r.chunksNumber == 0
            && r.msg == EmptyContentMsg(fileName) && r.deletes == []
  {
    SumZeroIffAllZero(lengths);
  }

  // ---------------------------------------------------------------------------
  // Progress messages

  /** The percentages `process_data` draws with `random.randint` for its
      progress messages: at the start (1 to 5), after the parse (5 to 75) and
      after the insert (75 to 100). */
  datatype Progress = Progress(atStart: nat, afterParse: nat, afterInsert: nat)

  /** `f'Processing:{n}%'`. */
  function ProgressMsg(percent: nat): string
  {
    "Processing:" + NatToString(percent) + "%"
  }

  /** The three progress messages, in the order `process_data` writes them. */
  function AllProgressMsgs(progress: Progress): seq<string>
  {
    [ProgressMsg(progress.atStart), ProgressMsg(progress.afterParse), ProgressMsg(progress.afterInsert)]
  }

  /** How many of its three progress messages `process_data` writes before the
      return it reaches: one when the parse fails or its content is rejected,
      two when the insert fails, three when the file is inserted. */
  function StagesReached(parse: ParseOutcome, insert: InsertOutcome, maxChars: nat): nat
  {
    if !AcceptedContent(parse, maxChars) then 1 else if !insert.Inserted? then 2 else 3
  }

  /** The progress messages `process_data` writes to the file's row, in order,
      on its way to the return it reaches. */
  function ProgressMsgs(parse: ParseOutcome, insert: InsertOutcome, maxChars: nat, progress: Progress): seq<string>
  {
    AllProgressMsgs(progress)[..StagesReached(parse, insert, maxChars)]
  }

  /** How many progress messages are written before `process_data` returns,
      or, with `raisesAfter == Some(n)`, before the exception that escapes it
      right after its n-th message (after the last one, if it writes fewer). */
  function WrittenCount(parse: ParseOutcome, insert: InsertOutcome, maxChars: nat, raisesAfter: Option<nat>): nat
  {
    var stages := StagesReached(parse, insert, maxChars);
    if raisesAfter.Some? then Min(raisesAfter.value, stages) else stages
  }

  /** The progress messages written before `process_data` returns or raises. */
  function WrittenMsgs(parse: ParseOutcome, insert: InsertOutcome, maxChars: nat, progress: Progress,
                       raisesAfter: Option<nat>): seq<string>
  {
    AllProgressMsgs(progress)[..WrittenCount(parse, insert, maxChars, raisesAfter)]
  }

  /** The first message is always written, the second exactly when the parse
      produced content the insert stage accepts, the third exactly when the
      file turns green; the last one written names the last stage reached. */
  lemma ProgressMsgsFollowOutcome(fileId: string, fileName: string, parse: ParseOutcome, insert: InsertOutcome,
                                  maxChars: nat, timeRecordJson: string, progress: Progress)
    ensures var msgs := ProgressMsgs(parse, insert, maxChars, progress);
            var p := ProcessOutcome(fileId, fileName, parse, insert, maxChars, timeRecordJson);
            && 1 <= |msgs| <= 3
            && msgs[0] == ProgressMsg(progress.atStart)
            && (|msgs| >= 2 <==> AcceptedContent(parse, maxChars))
            && (|msgs| >= 2 ==> msgs[1] == ProgressMsg(progress.afterParse))
            && (|msgs| == 3 <==> p.status == Green)
            && (|msgs| == 3 ==> msgs[2] == ProgressMsg(progress.afterInsert))
            && msgs[|msgs| - 1] == ProgressMsg(if p.status == Green then progress.afterInsert
                                               else if AcceptedContent(parse, maxChars) then progress.afterParse
                                               else progress.atStart)
  {
  }

  // ---------------------------------------------------------------------------
  // One iteration of the polling loop

  /** Where, if anywhere, an exception escapes the iteration's store access:
      the selecting query, the claiming update, the processing of the claimed
      file (a store call inside it, or a collaborator raising, right after its
      first `writes` progress messages, or after all it writes if fewer) or the
      update that records the outcome. A failing statement does not take
      effect. */
  datatype StoreFault = NoFault | SelectFails | ClaimFails | ProcessRaises(writes: nat) | RecordFails

  /** Everything an iteration depends on besides the table: the minute of the
      hour, the stage outcomes, the timing record, the progress percentages
      drawn, where an exception escapes and whether the recovery connection
      fails too. */
  datatype Iteration = Iteration(minute: nat, parse: ParseOutcome, insert: InsertOutcome,
                                 timeRecordJson: string, progress: Progress, fault: StoreFault,
                                 recoveryFails: bool)

  /** Whether `process_data` ran to its return in this iteration. */
  predicate ProcessReturned(it: Iteration)
  {
    it.fault == NoFault || it.fault == RecordFails
  }

  /** The progress messages written in an iteration before `process_data`
      raised or the outcome was recorded: none if it never ran, the first
      `writes` if it raised, all of them if it returned. */
  function WrittenProgress(it: Iteration, maxChars: nat): seq<string>
  {
    match it.fault
    case ProcessRaises(n) => WrittenMsgs(it.parse, it.insert, maxChars, it.progress, Some(n))
    case NoFault => WrittenMsgs(it.parse, it.insert, maxChars, it.progress, None)
    case RecordFails => WrittenMsgs(it.parse, it.insert, maxChars, it.progress, None)
    case _ => []
  }

  /** The claimed row at the end of an iteration that selected it. */
  function ClaimedRowAfter(row: FileRow, it: Iteration, maxChars: nat): (r: FileRow)
    requires it.fault != SelectFails
    ensures r == row.(status := r.status, contentLength := r.contentLength,
                      chunksNumber := r.chunksNumber, msg := r.msg)
    ensures it.fault == ClaimFails ==> r == row
    ensures it.fault == NoFault ==> r.status == Green || r.status == Red
    ensures it.fault != ClaimFails ==> (r.status == Yellow <==> it.fault != NoFault && it.recoveryFails)
    ensures it.fault != ClaimFails ==> r.status != Gray
    ensures it.fault.ProcessRaises? || it.fault == RecordFails ==>
              && r.contentLength == row.contentLength && r.chunksNumber == row.chunksNumber
              && var written := WrittenProgress(it, maxChars);
                 r.msg == if |written| > 0 then written[|written| - 1] else row.msg
  {
    match it.fault
    case ClaimFails => row
    case NoFault =>
      var p := ProcessOutcome(row.fileId, row.fileName, it.parse, it.insert, maxChars, it.timeRecordJson);
      row.(status := p.status, contentLength := p.contentLength, chunksNumber := p.chunksNumber, msg := p.msg)
    case ProcessRaises(_) | RecordFails =>
      var written := WrittenProgress(it, maxChars);
      row.(status := if it.recoveryFails then Yellow else Red,
           msg := if |written| > 0 then written[|written| - 1] else row.msg)
  }

  /** When only the recording update fails, the row keeps the progress message
      of the last stage `process_data` reached, not the outcome's message. */
  lemma RecordFailureLeavesProgress(row: FileRow, it: Iteration, maxChars: nat)
    requires it.fault == RecordFails
    ensures var p := ProcessOutcome(row.fileId, row.fileName, it.parse, it.insert, maxChars, it.timeRecordJson);
            ClaimedRowAfter(row, it, maxChars).msg
            == ProgressMsg(if p.status == Green then it.progress.afterInsert
                           else if AcceptedContent(it.parse, maxChars) then it.progress.afterParse
                           else it.progress.atStart)
  {
    ProgressMsgsFollowOutcome(row.fileId, row.fileName, it.parse, it.insert, maxChars, it.timeRecordJson,
                              it.progress);
  }

  /** When processing raised after the claim, the row is still yellow when the
      recovery handler runs, and its update leaves the row the iteration
      promises with a working recovery connection. */
  lemma RecoveryTurnsRed(row: FileRow, it: Iteration, maxChars: nat)
    requires (it.fault.ProcessRaises? || it.fault == RecordFails) && !it.recoveryFails
    ensures ClaimedRowAfter(row, it.(recoveryFails := true), maxChars).status == Yellow
    ensures ClaimedRowAfter(row, it.(recoveryFails := true), maxChars).(status := Red)
            == ClaimedRowAfter(row, it, maxChars)
  {
  }

  /** How the worker's loop may change the File table: only waiting rows are
      touched, and only in their outcome fields; with working recovery no row
      is left in processing that was not already in processing. */
  ghost predicate Advances(before: seq<FileRow>, after: seq<FileRow>, recovered: bool)
  {
    |after| == |before|
    && forall k :: 0 <= k < |before| ==>
         && after[k] == before[k].(status := after[k].status, contentLength := after[k].contentLength,
                                   chunksNumber := after[k].chunksNumber, msg := after[k].msg)
         && (before[k].status != Gray ==> after[k] == before[k])
         && (recovered && after[k].status == Yellow ==> before[k].status == Yellow)
  }

  lemma AdvancesTransitive(a: seq<FileRow>, b: seq<FileRow>, c: seq<FileRow>, recovered: bool)
    requires Advances(a, b, recovered) && Advances(b, c, recovered)
    ensures Advances(a, c, recovered)
  {
  }

  /** An iteration that selected an eligible row advances the table. */
  lemma ClaimedRowAdvances(before: seq<FileRow>, i: nat, workers: nat, shard: nat, it: Iteration, maxChars: nat)
    requires workers > 0 && i < |before| && Eligible(before[i], workers, shard) && it.fault != SelectFails
    ensures Advances(before, before[i := ClaimedRowAfter(before[i], it, maxChars)], !it.recoveryFails)
  {
  }

  /** The milvus collaborator, reduced to the deletions issued to it. */
  class VectorStore {
    var deletedExprs: seq<string>

    constructor ()
      ensures deletedExprs == []
    {
      deletedExprs := [];
    }

    method DeleteExpr(expr: string)
      modifies this
      ensures deletedExprs == old(deletedExprs) + [expr]
    {
      deletedExprs := deletedExprs + [expr];
    }
  }

  /** A pass sleeps 0.1 s or 3 s, and 0.1 s only when nothing raised. */
  predicate SleepFits(it: Iteration, sleepTime: real)
  {
    sleepTime == IdleSleep || (sleepTime == BusySleep && it.fault == NoFault)
  }

  /** Each pass of a run so far chose a sleep that fits it. */
  predicate SleepsFit(iterations: seq<Iteration>, sleeps: seq<real>)
  {
    |sleeps| <= |iterations| && forall k :: 0 <= k < |sleeps| ==> SleepFits(iterations[k], sleeps[k])
  }

  lemma SleepsFitSnoc(iterations: seq<Iteration>, sleeps: seq<real>, sleepTime: real)
    requires SleepsFit(iterations, sleeps) && |sleeps| < |iterations|
    requires SleepFits(iterations[|sleeps|], sleepTime)
    ensures SleepsFit(iterations, sleeps + [sleepTime])
  {
  }

  class Worker {
    const workerId: nat
    const workers: nat
    const maxChars: nat
    const db: Database
    const milvus: VectorStore

    constructor (workerId: nat, workers: nat, maxChars: nat, db: Database, milvus: VectorStore)
      requires workers > 0
      ensures this.workerId == workerId && this.workers == workers && this.maxChars == maxChars
      ensures this.db == db && this.milvus == milvus
    {
      this.workerId := workerId;
      this.workers := workers;
      this.maxChars := maxChars;
      this.db := db;
      this.milvus := milvus;
    }

    /** `update_file_msg`: `UPDATE File SET msg=%s WHERE file_id=%s`. */
    method UpdateFileMsg(fileId: string, msg: string)
      requires db.Valid()
      modifies db`files
      ensures db.Valid() && db.files == WithMsg(old(db.files), fileId, [msg])
    {
      db.UpdateFiles((r: FileRow) => r.fileId == fileId, (r: FileRow) => r.(msg := msg));
    }

    /** The n-th progress message of a run that started from `base` (the
        table before the first one). */
    method WriteProgress(fileId: string, msgs: seq<string>, n: nat, ghost base: seq<FileRow>)
      requires db.Valid() && n < |msgs| && db.files == WithMsg(base, fileId, msgs[..n])
      modifies db`files
      ensures db.Valid() && db.files == WithMsg(base, fileId, msgs[..n + 1])
    {
      UpdateFileMsg(fileId, msgs[n]);
      WithMsgStep(base, fileId, msgs, n);
    }

    /** The parse stage of `process_data` (its first `try`): the content
        length, and the message it returns with when the parse fails or the
        content is rejected. */
    method ParseStage(fileName: string, parse: ParseOutcome) returns (contentLength: int, rejection: Option<string>)
      ensures contentLength == if parse.Parsed? then Sum(parse.pageLengths) else -1
      ensures rejection.None? <==> AcceptedContent(parse, maxChars)
      ensures parse.ParseTimeout? ==> rejection == Some(ParseTimeoutMsg)
      ensures parse.ParseError? ==> rejection == Some(ParseErrorMsg)
      ensures parse.Parsed? && contentLength > maxChars ==>
                rejection == Some(TooLargeMsg(fileName, contentLength, maxChars))
      ensures parse.Parsed? && contentLength == 0 ==> rejection == Some(EmptyContentMsg(fileName))
    {
      match parse {
        case ParseTimeout =>
          return -1, Some(ParseTimeoutMsg);
        case ParseError =>
          return -1, Some(ParseErrorMsg);
        case Parsed(lengths) =>
          contentLength := Sum(lengths);
          if contentLength > maxChars {
            rejection := Some(TooLargeMsg(fileName, contentLength, maxChars));
          } else if contentLength == 0 {
            rejection := Some(EmptyContentMsg(fileName));
          } else {
            rejection := None;
          }
      }
    }

    /** The insert stage of `process_data` (its second `try`): the number of
        chunks, and the message it returns with when the insert fails; a
        timeout deletes the vectors already stored for the file. */
    method InsertStage(fileId: string, insert: InsertOutcome) returns (chunksNumber: int, failure: Option<string>)
      modifies milvus
      ensures chunksNumber == if insert.Inserted? then insert.chunks else 0
      ensures failure.None? <==> insert.Inserted?
      ensures insert.InsertTimeout? ==> failure == Some(InsertTimeoutMsg)
      ensures insert.InsertError? ==> failure == Some(InsertErrorMsg)
      ensures milvus.deletedExprs
              == old(milvus.deletedExprs) + if insert.InsertTimeout? then [DeleteExprFor(fileId)] else []
    {
      match insert {
        case InsertTimeout =>
          milvus.DeleteExpr(DeleteExprFor(fileId));
          return 0, Some(InsertTimeoutMsg);
        case InsertError =>
          return 0, Some(InsertErrorMsg);
        case Inserted(chunks) =>
          return chunks, None;
      }
    }

    /** `process_data`: write a progress message, run the parse stage, write a
        second one, run the insert stage and write a third, returning early
        when a stage fails. With `raisesAfter == Some(n)` an exception escapes
        right after the n-th progress message (or after the last one written,
        if fewer); `writes` counts the messages written. */
    method ProcessData(row: FileRow, parse: ParseOutcome, insert: InsertOutcome, timeRecordJson: string,
                       progress: Progress, raisesAfter: Option<nat>)
      returns (raised: bool, status: Status, contentLength: int, chunksNumber: int, msg: string, ghost writes: nat)
      requires db.Valid()
      modifies db`files, milvus
      ensures db.Valid()
      ensures writes == WrittenCount(parse, insert, maxChars, raisesAfter)
      ensures db.files == WithMsg(old(db.files), row.fileId, AllProgressMsgs(progress)[..writes])
      ensures raised <==> raisesAfter.Some?
      ensures raised ==> milvus.deletedExprs == old(milvus.deletedExprs)
      ensures var p := ProcessOutcome(row.fileId, row.fileName, parse, insert, maxChars, timeRecordJson);
              !raised ==> status == p.status && contentLength == p.contentLength && chunksNumber == p.chunksNumber
                          && msg == p.msg && milvus.deletedExprs == old(milvus.deletedExprs) + p.deletes
    {
      var all := AllProgressMsgs(progress);
      writes := 0;
      WithNoMsg(db.files, row.fileId, all[..writes]);
      raised := raisesAfter.Some?;
      status, contentLength, chunksNumber, msg := Green, -1, 0, "success";
      if raisesAfter == Some(0) {
        return;
      }
      WriteProgress(row.fileId, all, 0, old(db.files));
      writes := writes + 1;
      var rejection;
      contentLength, rejection := ParseStage(row.fileName, parse);
      if rejection.Some? {
        status, msg := Red, rejection.value;
        return;
      }
      if raisesAfter == Some(1) {
        return;
      }
      WriteProgress(row.fileId, all, 1, old(db.files));
      writes := writes + 1;
      if raised && !insert.Inserted? {
        return;
      }
      var failure;
      chunksNumber, failure := InsertStage(row.fileId, insert);
      if failure.Some? {
        status, msg := Red, failure.value;
        return;
      }
      if raisesAfter == Some(2) {
        return;
      }
      WriteProgress(row.fileId, all, 2, old(db.files));
      writes := writes + 1;
      msg := timeRecordJson;
    }

    /** `UPDATE File SET status='yellow' WHERE id=%s`: the claim, whatever the
        row's status was. */
    method Claim(id: nat)
      requires db.Valid()
      modifies db`files
      ensures db.Valid() && |db.files| == |old(db.files)|
      ensures forall k :: 0 <= k < |db.files| ==>
                db.files[k] == if old(db.files)[k].id == id then old(db.files)[k].(status := Yellow)
                               else old(db.files)[k]
    {
      db.UpdateFiles((r: FileRow) => r.id == id, (r: FileRow) => r.(status := Yellow));
    }

    /** `UPDATE File SET status, content_length, chunks_number, msg WHERE id=%s`. */
    method Record(id: nat, status: Status, contentLength: int, chunksNumber: int, msg: string)
      requires db.Valid()
      modifies db`files
      ensures db.Valid() && |db.files| == |old(db.files)|
      ensures forall k :: 0 <= k < |db.files| ==>
                db.files[k] == if old(db.files)[k].id == id
                               then old(db.files)[k].(status := status, contentLength := contentLength,
                                                      chunksNumber := chunksNumber, msg := msg)
                               else old(db.files)[k]
    {
      db.UpdateFiles((r: FileRow) => r.id == id,
        (r: FileRow) => r.(status := status, contentLength := contentLength, chunksNumber := chunksNumber, msg := msg));
    }

    /** The exception handler: if this pass claimed an id, `UPDATE File SET
        status='red' WHERE id=%s AND status='yellow'`; rows in any other status,
        and every row when nothing was claimed, are left as they are. */
    method Recover(id: Option<nat>)
      requires db.Valid()
      modifies db`files
      ensures db.Valid() && |db.files| == |old(db.files)|
      ensures forall k :: 0 <= k < |db.files| ==>
                db.files[k] == if id.Some? && old(db.files)[k].id == id.value && old(db.files)[k].status == Yellow
                               then old(db.files)[k].(status := Red)
                               else old(db.files)[k]
    {
      if id.Some? {
        var claimedId := id.value;
        db.UpdateFiles((r: FileRow) => r.id == claimedId && r.status == Yellow, (r: FileRow) => r.(status := Red));
      }
    }

    /** The part of a pass after a row was selected: claim it, process it and
        record the outcome, stopping at the first exception. The row is left
        as the exception found it; `raised` says whether one was raised. */
    method ClaimAndProcess(i: nat, it: Iteration) returns (raised: bool)
      requires db.Valid() && i < |db.files| && it.fault != SelectFails
      modifies db`files, milvus
      ensures db.Valid()
      ensures raised <==> it.fault != NoFault
      ensures db.files == old(db.files)[i := ClaimedRowAfter(old(db.files)[i], it.(recoveryFails := true), maxChars)]
      ensures milvus.deletedExprs == old(milvus.deletedExprs)
                + (if ProcessReturned(it)
                   then ProcessOutcome(old(db.files)[i].fileId, old(db.files)[i].fileName, it.parse, it.insert,
                                       maxChars, it.timeRecordJson).deletes
                   else [])
    {
      var id := db.files[i].id;
      if it.fault == ClaimFails {
        return true;
      }
      // The claim is not conditional on the row still being gray.
      Claim(id);
      UpdateByIdTouchesOneRow(old(db.files), db.files, i, old(db.files)[i].(status := Yellow));
      var fileInfo := db.files[i];
      ghost var claimedRows := db.files;
      var raisesAfter := if it.fault.ProcessRaises? then Some(it.fault.writes) else None;
      var processRaised, status, contentLength, chunksNumber, msg, writes :=
        ProcessData(fileInfo, it.parse, it.insert, it.timeRecordJson, it.progress, raisesAfter);
      WithMsgOneRow(claimedRows, i, WrittenProgress(it, maxChars));
      if processRaised || it.fault == RecordFails {
        return true;
      }
      ghost var processedRows := db.files;
      Record(id, status, contentLength, chunksNumber, msg);
      UpdateByIdTouchesOneRow(processedRows, db.files, i,
        processedRows[i].(status := status, contentLength := contentLength,
                          chunksNumber := chunksNumber, msg := msg));
      raised := false;
    }

    /** One pass of `check_and_process`: select, claim, process, record; on an
        exception, recover; then choose how long to sleep. `claimed` is the id
        the pass claimed, if any. */
    method CheckAndProcess(it: Iteration) returns (claimed: Option<nat>, sleepTime: real)
      requires workers > 0 && db.Valid()
      modifies db`files, milvus
      ensures db.Valid()
      ensures var pick := OldestGray(old(db.files), workers, Shard(workerId, it.minute, workers));
              if it.fault == SelectFails || pick.None? then
                && claimed == None
                && db.files == old(db.files)
                && milvus.deletedExprs == old(milvus.deletedExprs)
                && sleepTime == IdleSleep
              else
                var row := old(db.files)[pick.value];
                && claimed == Some(row.id)
                && db.files == old(db.files)[pick.value := ClaimedRowAfter(row, it, maxChars)]
                && milvus.deletedExprs == old(milvus.deletedExprs)
                   + (if ProcessReturned(it)
                      then ProcessOutcome(row.fileId, row.fileName, it.parse, it.insert, maxChars,
                                          it.timeRecordJson).deletes
                      else [])
                && sleepTime == if it.fault == NoFault then BusySleep else IdleSleep
      ensures SleepFits(it, sleepTime)
      ensures Advances(old(db.files), db.files, !it.recoveryFails)
    {
      sleepTime := IdleSleep;
      claimed := None;
      if it.fault == SelectFails {
        // The exception handler runs with no id claimed and changes nothing.
        return;
      }
      var shard := Shard(workerId, it.minute, workers);
      var pick := OldestGray(db.files, workers, shard);
      if pick.None? {
        return;
      }
      var i := pick.value;
      claimed := Some(db.files[i].id);
      var raised := ClaimAndProcess(i, it);
      if !raised {
        sleepTime := BusySleep;
      } else if !it.recoveryFails {
        ghost var beforeRecovery := db.files;
        Recover(claimed);
        if beforeRecovery[i].status == Yellow {
          RecoveryTurnsRed(old(db.files)[i], it, maxChars);
          UpdateByIdTouchesOneRow(beforeRecovery, db.files, i, beforeRecovery[i].(status := Red));
        } else {
          assert db.files == beforeRecovery;
        }
      }
      ClaimedRowAdvances(old(db.files), i, workers, shard, it, maxChars);
    }

    /** The first iterations of the worker's endless loop, one per element of
        `iterations`; the result lists the sleeps chosen. */
    method Run(iterations: seq<Iteration>) returns (sleeps: seq<real>)
      requires workers > 0 && db.Valid()
      modifies db`files, milvus
      ensures db.Valid()
      ensures |sleeps| == |iterations|
      ensures forall k :: 0 <= k < |sleeps| ==> SleepFits(iterations[k], sleeps[k])
      ensures Advances(old(db.files), db.files, forall k :: 0 <= k < |iterations| ==> !iterations[k].recoveryFails)
    {
      ghost var recovered := forall k :: 0 <= k < |iterations| ==> !iterations[k].recoveryFails;
      sleeps := [];
      var i := 0;
      while i < |iterations|
        invariant 0 <= i <= |iterations| && |sleeps| == i
        invariant SleepsFit(iterations, sleeps)
        invariant db.Valid()
        invariant Advances(old(db.files), db.files, recovered)
      {
        ghost var before := db.files;
        var claimed, sleepTime := CheckAndProcess(iterations[i]);
        AdvancesTransitive(old(db.files), before, db.files, recovered);
        SleepsFitSnoc(iterations, sleeps, sleepTime);
        sleeps := sleeps + [sleepTime];
        i := i + 1;
      }
    }
  }
}
