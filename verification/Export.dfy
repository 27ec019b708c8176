/** The export operation from its checks to its terminal chunk: dump output through the encrypter
    into the uploader, with the abort of a failed upload. */
module Export {
  import opened Wrappers
  import opened Bytes
  import opened Frames
  import opened Uploader
  import opened Encrypter
  import opened Progress

  /** What the surroundings do to one run. */
  datatype Surroundings = Surroundings(
    parses: bool,           // envelope and request decode
    passesChecks: bool,     // validation, token, credentials, dumper, object key
    sinkOpens: bool,        // CreateMultipartUpload succeeds
    randomWorks: bool,      // reading random bytes never fails
    toolStarts: bool,       // encrypter, gzip writer, arguments and dump tool are all set up
    writes: seq<seq<Byte>>, // what the copy loop hands to the encrypter, write by write
    readsToEnd: bool,       // the dump tool's output is read without an error
    exitsCleanly: bool,     // the dump tool exits with status 0
    gzipCloses: bool,       // the gzip trailer can be produced
    trailer: seq<seq<Byte>> // what closing gzip writes; nothing without compression
  )
  {
    /** Nothing fails. */
    predicate Fine() {
      && parses && passesChecks && sinkOpens && randomWorks && toolStarts
      && readsToEnd && exitsCleanly && gzipCloses
    }
  }

  /** How closing the pipeline went; a sink that fails to close has aborted itself. */
  datatype CloseOutcome = Closed | TailFailed | SinkFailedToClose

  datatype ExportError = NotParsed | Rejected | NoSink | NotStarted | CopyFailed | ToolFailed | CloseFailed

  /** The upload ended well: one completion request, answered well, for an object that holds
      exactly the accepted bytes, and no abort. */
  ghost predicate UploadCompleted(u: ChunkUploader)
    reads u, u.api
  {
    && u.api.aborts == 0
    && u.api.completions == [Completion(u.parts, true)]
    && u.parts != []
    && Object(u.api.puts, u.parts) == u.accepted
  }

  /** The upload was given up: one abort request, and no completion request answered well. One that
      was answered badly was for an object with at least one part that holds all accepted bytes. */
  ghost predicate UploadAborted(u: ChunkUploader)
    reads u, u.api
  {
    && u.api.aborts == 1
    && (u.api.completions != [] ==>
          && u.api.completions == [Completion(u.parts, false)]
          && u.parts != []
          && Object(u.api.puts, u.parts) == u.accepted)
  }

  /** The copy loop: stops at the first failed write. */
  method WriteAll(e: StreamEncrypter, writes: seq<seq<Byte>>) returns (err: Option<EncryptError>)
    requires e.Valid() && !e.closed
    modifies e`blockBuf, e`blockIdx, e`blocks, e`torn, e`accepted, e.out, e.out.api`puts
    ensures e.Valid()
    ensures e.out.closed == old(e.out.closed) && e.out.aborted == old(e.out.aborted)
    ensures err.None? ==> e.torn == old(e.torn) && e.accepted == old(e.accepted) + Flatten(writes)
    ensures err.None? ==> !e.closed
    ensures e.randomWorks && e.out.api.reliable && !e.out.closed ==> err.None?
  {
    err := None;
    var i := 0;
    assert Flatten(writes[..0]) == [];
    while i < |writes|
      invariant i <= |writes|
      invariant e.Valid() && !e.closed && e.torn == old(e.torn) && err.None?
      invariant e.out.closed == old(e.out.closed) && e.out.aborted == old(e.out.aborted)
      invariant e.accepted == old(e.accepted) + Flatten(writes[..i])
    {
      var n;
      n, err := e.Write(writes[i]);
      if err.Some? {
        return;
      }
      OneMoreWrite(old(e.accepted), writes, i);
      assert writes[i][..n] == writes[i];
      i := i + 1;
    }
    assert writes[..i] == writes;
  }

  lemma {:induction false} OneMoreWrite(before: seq<Byte>, writes: seq<seq<Byte>>, i: nat)
    requires i < |writes|
    ensures before + Flatten(writes[..i]) + writes[i] == before + Flatten(writes[..i + 1])
  {
    FlattenSnoc(writes[..i], writes[i]);
    assert writes[..i + 1] == writes[..i] + [writes[i]];
  }

  /** Closes gzip, then the encrypter, then the sink. */
  method ClosePipeline(e: StreamEncrypter, s: Surroundings) returns (r: CloseOutcome)
    requires e.Valid() && !e.closed && !e.torn && !e.out.closed && !e.out.aborted
    modifies e, e.out, e.out.api
    ensures e.Valid()
    ensures r.TailFailed? ==> !e.out.aborted && e.out.api.completions == []
    ensures r.SinkFailedToClose? ==> UploadAborted(e.out)
    ensures r.Closed? ==>
      && s.gzipCloses
      && UploadCompleted(e.out)
      && e.out.accepted == Encode(e.aead, 0, e.blocks)
      && Plains(e.blocks) == Chunks(BLOCK_SIZE, old(e.accepted) + Flatten(s.trailer))
      && e.out.uploaded == |e.out.accepted|
    ensures s.gzipCloses && e.randomWorks && e.out.api.reliable ==> r.Closed?
  {
    if !s.gzipCloses {
      return TailFailed;
    }
    var err := WriteAll(e, s.trailer);
    if err.Some? {
      return TailFailed;
    }
    err := e.Close();
    if err.Some? {
      return TailFailed;
    }
    var closeErr := e.out.Close();
    r := if closeErr.None? then Closed else SinkFailedToClose;
  }

  /** One run of the operation. */
  method OpExportDump(aead: Aead, s: Surroundings, api: MultipartApi, emitter: Emitter)
    returns (err: Option<ExportError>, size: nat, sink: Option<ChunkUploader>, ghost blocks: seq<Block>)
    requires api.puts == [] && api.completions == [] && api.aborts == 0 && emitter.chunks == []
    modifies api, emitter
    ensures Finished(EXPORT_STAGES, emitter.chunks, err.None?)
    // a sink that was constructed ends completed, with no abort, or aborted, exactly once
    ensures sink.Some? ==> fresh(sink.value) && sink.value.api == api
    ensures sink.Some? && err.Some? ==> UploadAborted(sink.value)
    ensures err.None? ==> sink.Some? && UploadCompleted(sink.value)
    ensures sink.None? ==> api.puts == [] && api.completions == [] && api.aborts == 0
    // and a completed one holds the canonical encryption of everything that was written
    ensures err.None? ==>
      && s.readsToEnd && s.exitsCleanly
      && ValidBlocks(blocks)
      && Plains(blocks) == Chunks(BLOCK_SIZE, Flatten(s.writes + s.trailer))
      && sink.value.accepted == Encode(aead, 0, blocks)
      && size == |sink.value.accepted|
    // it succeeds unless something it depends on fails, ...
    ensures s.Fine() && api.reliable ==> err.None?
    // ... and then only if every step was done; a failed check stops it before anything else
    ensures err.None? ==> s.parses && s.passesChecks && s.sinkOpens && s.toolStarts && s.gzipCloses
    ensures !s.parses ==> err == Some(NotParsed) && emitter.chunks == []
    ensures s.parses && !s.passesChecks ==> err == Some(Rejected) && emitter.chunks == [Failed]
    ensures s.parses && s.passesChecks && !s.sinkOpens ==> err == Some(NoSink) && emitter.chunks == [Dumping, Failed]
    ensures sink.Some? <==> s.parses && s.passesChecks && s.sinkOpens
    ensures sink.Some? && !s.toolStarts ==> err == Some(NotStarted) && api.puts == []
  {
    size, sink, blocks := 0, None, [];
    if !s.parses {
      return Some(NotParsed), 0, None, [];
    }
    if !s.passesChecks {
      emitter.Emit(Failed);
      assert emitter.chunks == EXPORT_STAGES[..0] + [Failed];
      return Some(Rejected), 0, None, [];
    }
    emitter.Emit(Dumping);
    if !s.sinkOpens {
      emitter.Emit(Failed);
      assert emitter.chunks == EXPORT_STAGES[..1] + [Failed];
      return Some(NoSink), 0, None, [];
    }
    var u := new ChunkUploader(api);
    sink := Some(u);
    var uploadAborted := false;
    err, size, uploadAborted, blocks := RunPipeline(aead, s, u, emitter);
    // the deferred abort
    if !uploadAborted {
      var _ := u.Abort();
    }
  }

  /** The part of the operation that runs with the deferred abort armed. */
  method RunPipeline(aead: Aead, s: Surroundings, u: ChunkUploader, emitter: Emitter)
    returns (err: Option<ExportError>, size: nat, uploadAborted: bool, ghost blocks: seq<Block>)
    requires u.Valid() && u.accepted == [] && !u.closed && !u.aborted && u.completeErr.None?
    requires emitter.chunks == [Dumping]
    modifies u, u.api, emitter
    ensures u.Valid()
    ensures Finished(EXPORT_STAGES, emitter.chunks, err.None?)
    ensures !uploadAborted ==> err.Some? && !u.aborted && u.api.completions == []
    ensures uploadAborted && err.Some? ==> UploadAborted(u)
    ensures err.None? ==>
      && uploadAborted
      && UploadCompleted(u)
      && s.readsToEnd && s.exitsCleanly
      && ValidBlocks(blocks)
      && Plains(blocks) == Chunks(BLOCK_SIZE, Flatten(s.writes + s.trailer))
      && u.accepted == Encode(aead, 0, blocks)
      && size == |u.accepted|
    ensures s.Fine() && u.api.reliable ==> err.None?
    ensures err.None? ==> s.toolStarts && s.gzipCloses
    ensures !s.toolStarts ==> err == Some(NotStarted) && u.api.puts == old(u.api.puts)
  {
    size, blocks := 0, [];
    var e := new StreamEncrypter(aead, u, s.randomWorks);
    if !s.toolStarts {
      emitter.Emit(Failed);
      assert emitter.chunks == EXPORT_STAGES[..1] + [Failed];
      return Some(NotStarted), 0, false, [];
    }
    emitter.Emit(Uploading);
    assert emitter.chunks == Ticked(EXPORT_STAGES, 0);
    err, size := Transfer(s, e, emitter);
    return err, size, true, e.blocks;
  }

  /** finalizeFailure: aborts the sink and emits the terminal chunk. */
  method FinalizeFailure(u: ChunkUploader, emitter: Emitter, ghost k: nat)
    requires u.Valid() && !u.aborted && u.api.completions == []
    requires emitter.chunks == Ticked(EXPORT_STAGES, k)
    modifies u`aborted, u.api`aborts, emitter
    ensures u.Valid() && UploadAborted(u)
    ensures Finished(EXPORT_STAGES, emitter.chunks, false)
  {
    var _ := u.Abort();
    emitter.Emit(Failed);
  }

  /** The copy loop, with the ticker beside it. */
  method CopyAndTick(e: StreamEncrypter, writes: seq<seq<Byte>>, emitter: Emitter)
    returns (err: Option<EncryptError>, ghost k: nat)
    requires e.Valid() && e.accepted == [] && !e.closed
    requires emitter.chunks == Ticked(EXPORT_STAGES, 0)
    modifies e`blockBuf, e`blockIdx, e`blocks, e`torn, e`accepted, e.out, e.out.api`puts, emitter
    ensures e.Valid()
    ensures e.out.closed == old(e.out.closed) && e.out.aborted == old(e.out.aborted)
    ensures err.None? ==> e.torn == old(e.torn) && e.accepted == Flatten(writes) && !e.closed
    ensures e.randomWorks && e.out.api.reliable && !e.out.closed ==> err.None?
    ensures emitter.chunks == Ticked(EXPORT_STAGES, k)
  {
    k := emitter.Ticks(EXPORT_STAGES, 0);
    err := WriteAll(e, writes);
    assert [] + Flatten(writes) == Flatten(writes);
  }

  /** Pumps the dump tool's output and closes the pipeline; on any failure the sink is aborted. */
  method Transfer(s: Surroundings, e: StreamEncrypter, emitter: Emitter) returns (err: Option<ExportError>, size: nat)
    requires e.Valid() && e.accepted == [] && !e.closed && !e.torn
    requires !e.out.closed && !e.out.aborted
    requires emitter.chunks == Ticked(EXPORT_STAGES, 0)
    modifies e, e.out, e.out.api, emitter
    ensures e.out.Valid()
    ensures Finished(EXPORT_STAGES, emitter.chunks, err.None?)
    ensures err.Some? ==> UploadAborted(e.out)
    ensures err.None? ==>
      && UploadCompleted(e.out)
      && s.readsToEnd && s.exitsCleanly && s.gzipCloses
      && ValidBlocks(e.blocks)
      && Plains(e.blocks) == Chunks(BLOCK_SIZE, Flatten(s.writes + s.trailer))
      && e.out.accepted == Encode(e.aead, 0, e.blocks)
      && size == |e.out.accepted|
    ensures s.Fine() && e.randomWorks && e.out.api.reliable ==> err.None?
  {
    var copyErr;
    ghost var k;
    copyErr, k := CopyAndTick(e, s.writes, emitter);
    if copyErr.Some? || !s.readsToEnd || !s.exitsCleanly {
      FinalizeFailure(e.out, emitter, k);
      return Some(if s.exitsCleanly || copyErr.Some? || !s.readsToEnd then CopyFailed else ToolFailed), 0;
    }
    var r := ClosePipeline(e, s);
    if !r.Closed? {
      if r.TailFailed? {
        FinalizeFailure(e.out, emitter, k);
      } else {
        emitter.Emit(Failed);
      }
      return Some(CloseFailed), 0;
    }
    emitter.Emit(Completed);
    FlattenConcat(s.writes, s.trailer);
    return None, e.out.uploaded;
  }
}
