/** The `process-pdf` edge function: validate the request, delete the document's old
    rows, chunk the text, embed and insert the chunks five at a time, report the
    number of chunks.

    The embedding provider and the database are parameters: `embed` gives each chunk
    text its embedding or an error, `insertError` says whether inserting a batch of
    rows fails, and `deleteSucceeds` whether the delete reported an error. */
module Ingestion {
  import opened Wrappers
  import opened Chunker
  import opened ChunkStore

  /** Chunks are embedded and inserted this many at a time. */
  const BatchSize: nat := 5

  const MissingInputError: string := "Missing pdfText or documentName"
  const MissingKeyError: string := "JINA_API_KEY is not configured"

  /** The request body: both fields may be absent. */
  datatype IngestRequest = IngestRequest(pdfText: Option<string>, documentName: Option<string>)

  /** Everything the handler depends on besides the request and the table. */
  datatype Services = Services(
    jinaApiKey: Option<string>,
    deleteSucceeds: bool,
    embed: string -> Result<Embedding>,
    insertError: seq<ChunkRow> -> Option<string>)

  /** The JSON body and status the handler answers with. */
  datatype IngestResponse =
    | Processed(chunksProcessed: nat, documentName: string)
    | Failed(status: nat, error: string)

  /** The table after the request, and the response. */
  datatype IngestOutcome = IngestOutcome(table: Table, response: IngestResponse)

  /** The rows inserted by the batch loop, and the error that stopped it, if any. */
  datatype BatchRun = BatchRun(inserted: seq<ChunkRow>, failure: Option<string>)

  function Min(a: int, b: int): int
  {
    if a <= b then a else b
  }

  /** `Promise.all` over the embedding calls of one batch: every embedding in batch
      order, or the error of the first chunk whose embedding fails. */
  function EmbedBatch(batch: seq<string>, embed: string -> Result<Embedding>): (r: Result<seq<Embedding>>)
    ensures r.Success? <==> forall k :: 0 <= k < |batch| ==> embed(batch[k]).Success?
    ensures r.Success? ==> |r.value| == |batch|
    ensures r.Success? ==> forall k :: 0 <= k < |batch| ==> embed(batch[k]) == Success(r.value[k])
    ensures r.Failure? ==> exists k :: 0 <= k < |batch| && embed(batch[k]) == Failure(r.error)
    decreases |batch|
  {
    if |batch| == 0 then Success([])
    else
      match embed(batch[0])
      case Failure(e) => Failure(e)
      case Success(v) =>
        match EmbedBatch(batch[1..], embed)
        case Failure(e) => Failure(e)
        case Success(vs) => Success([v] + vs)
  }

  /** The rows of one batch: chunk `offset + k` gets `chunk_index` `offset + k`. */
  function BatchRows(batch: seq<string>, embeddings: seq<Embedding>, name: string, offset: nat): (rows: seq<ChunkRow>)
    requires |embeddings| == |batch|
    ensures |rows| == |batch|
    ensures forall k :: 0 <= k < |rows| ==>
      rows[k] == ChunkRow(batch[k], embeddings[k], name, offset + k, |batch[k]|)
  {
    seq(|batch|, k requires 0 <= k < |batch| => ChunkRow(batch[k], embeddings[k], name, offset + k, |batch[k]|))
  }

  /** The chunks of the batch that starts at index `start`. */
  function Batch(chunks: seq<string>, start: nat): seq<string>
    requires start < |chunks|
  {
    chunks[start..Min(start + BatchSize, |chunks|)]
  }

  /** One iteration of the batch loop: embed the batch, then insert its rows. */
  function AttemptBatch(chunks: seq<string>, name: string, services: Services, start: nat): Result<seq<ChunkRow>>
    requires start < |chunks|
  {
    var batch := Batch(chunks, start);
    match EmbedBatch(batch, services.embed)
    case Failure(e) => Failure(e)
    case Success(embeddings) =>
      var rows := BatchRows(batch, embeddings, name, start);
      match services.insertError(rows)
      case Some(e) => Failure(e)
      case None => Success(rows)
  }

  /** The row the handler writes for chunk `j`: the chunk text, the embedding the
      provider returned for it, the request's document name and index `j`. */
  predicate IsRowForChunk(row: ChunkRow, chunks: seq<string>, name: string,
                          embed: string -> Result<Embedding>, j: int)
  {
    && 0 <= j < |chunks|
    && embed(chunks[j]).Success?
    && row == ChunkRow(chunks[j], embed(chunks[j]).value, name, j, |chunks[j]|)
  }

  /** A batch that succeeds yields one row per chunk of the batch, row `k` being the
      row of chunk `start + k`. */
  lemma AttemptBatchRows(chunks: seq<string>, name: string, services: Services, start: nat)
    requires start < |chunks| && AttemptBatch(chunks, name, services, start).Success?
    ensures var rows := AttemptBatch(chunks, name, services, start).value;
            && |rows| == Min(start + BatchSize, |chunks|) - start
            && forall k :: 0 <= k < |rows| ==>
                 IsRowForChunk(rows[k], chunks, name, services.embed, start + k)
  {
    var batch := Batch(chunks, start);
    var rows := AttemptBatch(chunks, name, services, start).value;
    forall k | 0 <= k < |rows|
      ensures IsRowForChunk(rows[k], chunks, name, services.embed, start + k)
    {
      assert batch[k] == chunks[start + k];
    }
  }

  /** What the batch loop started at `start` guarantees about its run `r`: row `k`
      is the row of chunk `start + k`; every batch whose rows were inserted was
      embedded and inserted without error; without a failure every chunk from
      `start` on has its row; a failure stops the loop at a batch boundary, keeping
      the rows of the batches before it, and is the error of the batch that failed. */
  predicate RunFrom(r: BatchRun, chunks: seq<string>, name: string, services: Services, start: nat)
  {
    && (start + |r.inserted| <= |chunks| || r.inserted == [])
    && (forall k :: 0 <= k < |r.inserted| ==>
          IsRowForChunk(r.inserted[k], chunks, name, services.embed, start + k))
    && (forall b :: start <= b < start + |r.inserted| && (b - start) % BatchSize == 0 ==>
          AttemptBatch(chunks, name, services, b).Success?)
    && (r.failure.None? ==> start + |r.inserted| >= |chunks|)
    && (r.failure.Some? ==>
          && |r.inserted| % BatchSize == 0
          && start + |r.inserted| < |chunks|
          && AttemptBatch(chunks, name, services, start + |r.inserted|) == Failure(r.failure.value))
  }

  /** A successful batch followed by a run from the next batch is a run from this one. */
  lemma RunFromStep(chunks: seq<string>, name: string, services: Services, start: nat, rest: BatchRun)
    requires start < |chunks| && AttemptBatch(chunks, name, services, start).Success?
    requires RunFrom(rest, chunks, name, services, start + BatchSize)
    ensures RunFrom(BatchRun(AttemptBatch(chunks, name, services, start).value + rest.inserted, rest.failure),
                    chunks, name, services, start)
  {
    var rows := AttemptBatch(chunks, name, services, start).value;
    AttemptBatchRows(chunks, name, services, start);
    var all := rows + rest.inserted;
    if rest.inserted != [] || rest.failure.Some? {
      assert |rows| == BatchSize;
    }
    forall k | 0 <= k < |all|
      ensures IsRowForChunk(all[k], chunks, name, services.embed, start + k)
    {
      if k >= |rows| {
        assert all[k] == rest.inserted[k - |rows|];
      }
    }
    forall b | start <= b < start + |all| && (b - start) % BatchSize == 0
      ensures AttemptBatch(chunks, name, services, b).Success?
    {
      if b != start {
        assert b - start >= BatchSize;
        assert (b - (start + BatchSize)) % BatchSize == 0;
      }
    }
  }

  /** The loop `for (i = start; i < chunks.length; i += 5)`: embed and insert one
      batch after another until a batch fails or the chunks run out. */
  function RunBatches(chunks: seq<string>, name: string, services: Services, start: nat): (r: BatchRun)
    ensures RunFrom(r, chunks, name, services, start)
    decreases |chunks| - start
  {
    if start >= |chunks| then BatchRun([], None)
    else
      match AttemptBatch(chunks, name, services, start)
      case Failure(e) => BatchRun([], Some(e))
      case Success(rows) =>
        var rest := RunBatches(chunks, name, services, start + BatchSize);
        RunFromStep(chunks, name, services, start, rest);
        BatchRun(rows + rest.inserted, rest.failure)
  }

  /** The handler, from the parsed request to the table and response it leaves. */
  function Handle(request: IngestRequest, services: Services, table: Table): (r: IngestOutcome)
    ensures !Present(request.pdfText) || !Present(request.documentName) ==>
      r == IngestOutcome(table, Failed(500, MissingInputError))
    ensures Present(request.pdfText) && Present(request.documentName) && !Present(services.jinaApiKey) ==>
      r == IngestOutcome(table, Failed(500, MissingKeyError))
    ensures r.response.Processed? ==>
      && r.response.documentName == request.documentName.value
      && r.response.chunksProcessed == |ChunkText(request.pdfText.value, DefaultMaxChunkSize)|
    ensures r.response.Failed? ==> r.response.status == 500
  {
    if !Present(request.pdfText) || !Present(request.documentName) then
      IngestOutcome(table, Failed(500, MissingInputError))
    else if !Present(services.jinaApiKey) then
      IngestOutcome(table, Failed(500, MissingKeyError))
    else
      var name := request.documentName.value;
      var afterDelete := if services.deleteSucceeds then DeleteDocument(table, name) else table;
      var chunks := ChunkText(request.pdfText.value, DefaultMaxChunkSize);
      var run := RunBatches(chunks, name, services, 0);
      var finalTable := afterDelete + run.inserted;
      match run.failure
      case None => IngestOutcome(finalTable, Processed(|chunks|, name))
      case Some(e) => IngestOutcome(finalTable, Failed(500, e))
  }

  /** The request passed validation and the key is configured. */
  predicate Accepted(request: IngestRequest, services: Services)
  {
    Present(request.pdfText) && Present(request.documentName) && Present(services.jinaApiKey)
  }

  /** The table right after the delete step: the document's rows are gone, unless the
      delete failed, which the handler only logs. */
  function AfterDelete(request: IngestRequest, services: Services, table: Table): Table
    requires Accepted(request, services)
  {
    if services.deleteSucceeds then DeleteDocument(table, request.documentName.value) else table
  }

  function RunOf(request: IngestRequest, services: Services): BatchRun
    requires Accepted(request, services)
  {
    RunBatches(ChunkText(request.pdfText.value, DefaultMaxChunkSize), request.documentName.value, services, 0)
  }

  /** Whatever happens after validation, the handler only appends rows to the
      table left by the delete step, and the rows it appends are the rows of the
      first chunks, with `chunk_index` 0, 1, 2, ... in order. */
  lemma InsertsRowsInChunkOrder(request: IngestRequest, services: Services, table: Table)
    requires Accepted(request, services)
    ensures var r := Handle(request, services, table);
            var chunks := ChunkText(request.pdfText.value, DefaultMaxChunkSize);
            var base := AfterDelete(request, services, table);
            && |base| <= |r.table| && r.table[..|base|] == base
            && |r.table| - |base| <= |chunks|
            && forall k :: |base| <= k < |r.table| ==>
                 IsRowForChunk(r.table[k], chunks, request.documentName.value, services.embed, k - |base|)
  {
    var r := Handle(request, services, table);
    var base := AfterDelete(request, services, table);
    var run := RunOf(request, services);
    assert r.table == base + run.inserted;
    forall k | |base| <= k < |r.table|
      ensures IsRowForChunk(r.table[k], ChunkText(request.pdfText.value, DefaultMaxChunkSize),
                            request.documentName.value, services.embed, k - |base|)
    {
      assert r.table[k] == run.inserted[k - |base|];
    }
  }

  /** After a successful run whose delete succeeded, the document's rows are exactly
      the new chunks, one per chunk with `chunk_index` 0..n-1 in order, and every
      other document keeps the rows it had. The reported count is the number of rows
      inserted. */
  lemma SuccessReplacesDocument(request: IngestRequest, services: Services, table: Table, other: string)
    requires Accepted(request, services) && services.deleteSucceeds
    requires Handle(request, services, table).response.Processed?
    ensures var r := Handle(request, services, table);
            var name := request.documentName.value;
            var chunks := ChunkText(request.pdfText.value, DefaultMaxChunkSize);
            var rows := RowsOf(r.table, name);
            && |rows| == |chunks| == r.response.chunksProcessed
            && (forall k :: 0 <= k < |rows| ==> IsRowForChunk(rows[k], chunks, name, services.embed, k))
            && (other != name ==> RowsOf(r.table, other) == RowsOf(table, other))
  {
    var r := Handle(request, services, table);
    var name := request.documentName.value;
    var chunks := ChunkText(request.pdfText.value, DefaultMaxChunkSize);
    var run := RunOf(request, services);
    var base := DeleteDocument(table, name);
    assert run.failure.None?;
    assert r.table == base + run.inserted;
    assert |run.inserted| == |chunks|;
    forall k | 0 <= k < |run.inserted|
      ensures run.inserted[k].documentName == name
    {
      assert IsRowForChunk(run.inserted[k], chunks, name, services.embed, k);
    }
    RowsOfUniform(run.inserted, name);
    DeleteTouchesOnlyThatDocument(table, name, other);
    RowsOfAppend(base, run.inserted, name);
    RowsOfAppend(base, run.inserted, other);
    assert RowsOf(r.table, name) == run.inserted;
  }

  /** A failed delete is ignored: the old rows stay and the new ones are appended
      after them. */
  lemma DeleteFailureIsIgnored(request: IngestRequest, services: Services, table: Table)
    requires Accepted(request, services) && !services.deleteSucceeds
    ensures var r := Handle(request, services, table);
            |table| <= |r.table| && r.table[..|table|] == table
    ensures RunOf(request, services).failure.None? ==>
              Handle(request, services, table).response.Processed?
  {
  }

  /** An embedding or insert error stops the loop: when the batch starting at `b`
      is the first whose embedding or insert fails, the response is a 500 carrying
      that batch's error, and the table holds the rows of exactly the chunks before
      `b`, in order, after the table the delete left; the failing batch and all
      later ones are not inserted. */
  lemma FailureKeepsEarlierBatches(request: IngestRequest, services: Services, table: Table, b: nat)
    requires Accepted(request, services)
    requires var chunks := ChunkText(request.pdfText.value, DefaultMaxChunkSize);
             && b < |chunks| && b % BatchSize == 0
             && AttemptBatch(chunks, request.documentName.value, services, b).Failure?
             && forall c :: 0 <= c < b && c % BatchSize == 0 ==>
                  AttemptBatch(chunks, request.documentName.value, services, c).Success?
    ensures var r := Handle(request, services, table);
            var chunks := ChunkText(request.pdfText.value, DefaultMaxChunkSize);
            var base := AfterDelete(request, services, table);
            && r.response == Failed(500, AttemptBatch(chunks, request.documentName.value, services, b).error)
            && |r.table| == |base| + b && r.table[..|base|] == base
            && forall k :: |base| <= k < |r.table| ==>
                 IsRowForChunk(r.table[k], chunks, request.documentName.value, services.embed, k - |base|)
  {
    var chunks := ChunkText(request.pdfText.value, DefaultMaxChunkSize);
    var run := RunOf(request, services);
    FirstFailureStopsRun(run, chunks, request.documentName.value, services, b);
    InsertsRowsInChunkOrder(request, services, table);
  }

  /** A run from the first chunk stops exactly at the first batch that fails, with
      that batch's error. */
  lemma FirstFailureStopsRun(r: BatchRun, chunks: seq<string>, name: string, services: Services, b: nat)
    requires RunFrom(r, chunks, name, services, 0)
    requires b < |chunks| && b % BatchSize == 0 && AttemptBatch(chunks, name, services, b).Failure?
    requires forall c :: 0 <= c < b && c % BatchSize == 0 ==> AttemptBatch(chunks, name, services, c).Success?
    ensures r.failure == Some(AttemptBatch(chunks, name, services, b).error)
    ensures |r.inserted| == b
  {
    assert r.failure.Some?;
    assert |r.inserted| == b;
  }

  /** A run from the first chunk ends without failure exactly when every batch
      succeeds. */
  lemma RunCompleteIffEveryBatchSucceeds(r: BatchRun, chunks: seq<string>, name: string, services: Services)
    requires RunFrom(r, chunks, name, services, 0)
    ensures r.failure.None? <==>
            forall b :: 0 <= b < |chunks| && b % BatchSize == 0 ==> AttemptBatch(chunks, name, services, b).Success?
  {
  }

  /** The handler reports success exactly when every batch is embedded and inserted
      without error. */
  lemma ProcessedIffEveryBatchSucceeds(request: IngestRequest, services: Services, table: Table)
    requires Accepted(request, services)
    ensures var chunks := ChunkText(request.pdfText.value, DefaultMaxChunkSize);
            Handle(request, services, table).response.Processed? <==>
              forall b :: 0 <= b < |chunks| && b % BatchSize == 0 ==>
                AttemptBatch(chunks, request.documentName.value, services, b).Success?
  {
    var chunks := ChunkText(request.pdfText.value, DefaultMaxChunkSize);
    var run := RunOf(request, services);
    RunCompleteIffEveryBatchSucceeds(run, chunks, request.documentName.value, services);
    assert Handle(request, services, table).response.Processed? <==> run.failure.None?;
  }

  /** Text that yields no chunks still deletes the document's old rows and reports
      zero chunks processed. */
  lemma NoChunksStillDeletes(request: IngestRequest, services: Services, table: Table)
    requires Accepted(request, services) && services.deleteSucceeds
    requires ChunkText(request.pdfText.value, DefaultMaxChunkSize) == []
    ensures Handle(request, services, table) ==
            IngestOutcome(DeleteDocument(table, request.documentName.value), Processed(0, request.documentName.value))
  {
  }

  /** The same holds for every text of at most 50 characters. */
  lemma ShortTextOnlyDeletes(request: IngestRequest, services: Services, table: Table)
    requires Accepted(request, services) && services.deleteSucceeds
    requires |request.pdfText.value| <= MinChunkLength
    ensures Handle(request, services, table) ==
            IngestOutcome(DeleteDocument(table, request.documentName.value), Processed(0, request.documentName.value))
  {
    ShortTextHasNoChunks(request.pdfText.value, DefaultMaxChunkSize);
    NoChunksStillDeletes(request, services, table);
  }
}
