/** The restore operation: an encrypted object through the decrypter into the restore tool, with
    the rollback of a failed restore; and the round trip with the export. */
module Restore {
  import opened Wrappers
  import opened Bytes
  import opened Frames
  import opened Uploader
  import opened Progress
  import opened Decrypter
  import Export

  datatype Engine = MySQL | PostgreSQL | OtherEngine

  /** What becomes of a statement: it is executed and answered; it is executed, but the answer is lost,
      so that the call returns an error; or it is not executed. */
  datatype Execution = Answered | Unanswered | Refused

  /** What the surroundings do to one run. */
  datatype Surroundings = Surroundings(
    parses: bool,          // envelope decodes
    passesChecks: bool,    // validation, token, credentials, engine
    engine: Engine,        // MySQL stands for MariaDB too
    ownerAsked: bool,      // an owner for the target is asked for
    lookupWorks: bool,     // the query whether the target exists works
    create: Execution,     // CREATE DATABASE
    grantWorks: bool,      // GRANT, or ALTER DATABASE ... OWNER
    undoWorks: bool,       // the DROP DATABASE after a failed grant is executed
    flushWorks: bool,      // FLUSH PRIVILEGES
    sourceOpens: bool,     // the object or file opens
    toolStarts: bool,      // decrypter, arguments, pipe and restore tool are all set up
    sourceReliable: bool,  // reading the object fails only by reaching its end
    stdinAccepts: bool,    // the restore tool takes all that is piped to it
    exitsCleanly: bool,    // the restore tool exits with status 0
    rollbackWorks: bool    // the DROP DATABASE of the deferred rollback is executed
  )
  {
    /** Nothing fails. */
    predicate Fine() {
      && parses && passesChecks && !engine.OtherEngine? && lookupWorks && create.Answered? && grantWorks && flushWorks
      && sourceOpens && toolStarts && sourceReliable && stdinAccepts && exitsCleanly
    }

    /** CREATE DATABASE is reached and executed. */
    predicate Creates(present: bool) {
      parses && passesChecks && lookupWorks && !present && !engine.OtherEngine? && !create.Refused?
    }

    /** The target is set up, and the rollback is armed. */
    predicate SetsUp(present: bool) {
      Creates(present) && create.Answered? && (ownerAsked ==> grantWorks && (engine.MySQL? ==> flushWorks))
    }

    /** A run that fails leaves a target that it has created: the answer to the creation was lost, the
        privileges could not be flushed, or the DROP that was to undo the creation was not executed. */
    predicate Leaves(present: bool) {
      && Creates(present)
      && if create.Unanswered? then true
         else if ownerAsked && !grantWorks then !undoWorks
         else if ownerAsked && engine.MySQL? && !flushWorks then true
         else !rollbackWorks
    }
  }

  /** The hole: on MySQL, a failed FLUSH PRIVILEGES fails the run and leaves the new database, although
      every DROP would have worked. */
  lemma {:induction false} FlushLeavesTarget(s: Surroundings)
    requires s.Creates(false) && s.create.Answered?
    requires s.engine.MySQL? && s.ownerAsked && s.grantWorks && !s.flushWorks
    requires s.undoWorks && s.rollbackWorks
    ensures !s.SetsUp(false) && s.Leaves(false)
    ensures s.(flushWorks := true).SetsUp(false) && !s.(flushWorks := true).Leaves(false)
  {
  }

  /** With DROPs that work, these are the two ways to leave a target: the answer to the creation is lost,
      or the privileges cannot be flushed. */
  lemma {:induction false} LeftDespiteDrops(s: Surroundings, present: bool)
    requires s.undoWorks && s.rollbackWorks
    ensures s.Leaves(present) <==>
      && s.Creates(present)
      && (s.create.Unanswered? || (s.engine.MySQL? && s.ownerAsked && s.grantWorks && !s.flushWorks))
  {
  }

  datatype RestoreError = NotParsed | Rejected | NoTarget | NoSource | NotStarted | CopyFailed | ToolFailed

  /** The target database on its server. */
  class Target {
    var present: bool

    constructor (present: bool)
      ensures this.present == present
    {
      this.present := present;
    }

    /** CREATE DATABASE; the call returns no error only if the answer arrives. */
    method Create(execution: Execution) returns (ok: bool)
      requires !present
      modifies this
      ensures present <==> !execution.Refused?
      ensures ok <==> execution.Answered?
    {
      present := !execution.Refused?;
      ok := execution.Answered?;
    }

    method Drop(works: bool)
      modifies this
      ensures present == (old(present) && !works)
    {
      if works {
        present := false;
      }
    }

    /** createRestoreTarget */
    method SetUp(s: Surroundings) returns (ok: bool)
      requires s.parses && s.passesChecks
      modifies this
      ensures ok <==> s.SetsUp(old(present))
      ensures ok ==> present
      ensures !ok ==> present == (old(present) || s.Leaves(old(present)))
    {
      if !s.lookupWorks || present {
        return false;
      }
      match s.engine
      case MySQL =>
        ok := Create(s.create);
        if !ok {
          return false;
        }
        if s.ownerAsked {
          if !s.grantWorks {
            Drop(s.undoWorks);
            return false;
          }
          if !s.flushWorks {
            return false;
          }
        }
        return true;
      case PostgreSQL =>
        ok := Create(s.create);
        if !ok {
          return false;
        }
        if s.ownerAsked && !s.grantWorks {
          Drop(s.undoWorks);
          return false;
        }
        return true;
      case OtherEngine =>
        return false;
    }
  }

  /** `piped` is the text of the first blocks, or of a part of them. */
  ghost predicate Beginning(blocks: seq<Block>, piped: seq<Byte>, whole: bool) {
    exists k :: 0 <= k <= |blocks| && piped <= Text(blocks[..k]) && (whole ==> piped == Text(blocks[..k]))
  }

  /** The copy loop, with read buffers of any sizes. */
  method Pump(d: StreamDecrypter, stdinAccepts: bool) returns (piped: seq<Byte>, ok: bool)
    requires d.Valid() && d.delivered == [] && !d.failed
    modifies d, d.src
    ensures d.Valid()
    ensures piped <= d.delivered
    ensures ok ==> piped == d.delivered && d.plainPos == |d.plainBuf|
    ensures d.src.reliable && ok ==> d.whole == Decoded(piped, Eof)
    ensures d.src.reliable && stdinAccepts ==> (ok <==> d.whole.ending == Eof)
  {
    piped, ok := [], true;
    while true
      invariant d.Valid() && !d.failed
      invariant piped == d.delivered
      decreases |d.src.rest|, |d.plainBuf| - d.plainPos
    {
      var size: nat :| size > 0;
      var p := new Byte[size](_ => 0);
      var n, err := d.Read(p);
      if n > 0 && !stdinAccepts {
        var broken: bool := *;
        if broken {
          return piped, false;
        }
      }
      piped := piped + p[..n];
      if err.Some? {
        return piped, err.value.IsEof();
      }
    }
  }

  /** One run of the operation. `sealedBlocks` is any export made with this key. */
  method OpRestoreDump(
    aead: Aead, s: Surroundings, stored: seq<Byte>, target: Target, emitter: Emitter, ghost sealedBlocks: seq<Block>)
    returns (err: Option<RestoreError>, piped: seq<Byte>)
    requires emitter.chunks == []
    modifies target, emitter
    ensures Finished(RESTORE_STAGES, emitter.chunks, err.None?)
    // a success has created the target and keeps it; a failure keeps what was there before, and else
    // leaves a target exactly when `Leaves` says so
    ensures err.None? ==> s.SetsUp(old(target.present)) && target.present
    ensures err.Some? ==> target.present == (old(target.present) || s.Leaves(old(target.present)))
    // over a source that does not fail, success means the whole stream, and its end
    ensures err.None? && s.sourceReliable ==> Decode(aead, 0, stored) == Decoded(piped, Eof)
    ensures err.None? <== s.Fine() && !old(target.present) && Decode(aead, 0, stored).ending == Eof
    // whatever the object and the source: what is piped is a beginning of the export, and a success
    // has piped whole blocks
    ensures aead.OpensOnly(Log(aead, 0, sealedBlocks)) && |sealedBlocks| < Pow256(AAD_SIZE) ==>
      Beginning(sealedBlocks, piped, err.None?)
    // a success has done every step; a failed check, or a target that cannot be set up, stops it before
    // anything is piped, and a database that exists is left alone
    ensures err.None? ==> s.parses && s.passesChecks && s.lookupWorks && s.sourceOpens && s.toolStarts && s.exitsCleanly
    ensures err.None? ==> (s.ownerAsked ==> s.grantWorks && (s.engine.MySQL? ==> s.flushWorks))
    ensures !s.parses ==> err == Some(NotParsed) && emitter.chunks == [] && piped == []
    ensures s.parses && !s.passesChecks ==> err == Some(Rejected) && emitter.chunks == [Failed] && piped == []
    ensures old(target.present) ==> err.Some? && target.present && piped == []
    ensures s.parses && s.passesChecks && !s.SetsUp(old(target.present)) ==>
      err == Some(NoTarget) && emitter.chunks == [Preparing, Failed] && piped == []
  {
    piped := [];
    assert [] <= Text(sealedBlocks[..0]);
    if !s.parses {
      return Some(NotParsed), [];
    }
    if !s.passesChecks {
      emitter.Emit(Failed);
      assert emitter.chunks == RESTORE_STAGES[..0] + [Failed];
      return Some(Rejected), [];
    }
    emitter.Emit(Preparing);
    var ok := target.SetUp(s);
    if !ok {
      emitter.Emit(Failed);
      assert emitter.chunks == RESTORE_STAGES[..1] + [Failed];
      return Some(NoTarget), [];
    }
    var restoreSucceeded;
    err, piped, restoreSucceeded := RunPipeline(aead, s, stored, emitter, sealedBlocks);
    // the deferred rollback
    if !restoreSucceeded {
      target.Drop(s.rollbackWorks);
    }
  }

  /** The part of the operation that runs with the deferred rollback armed. */
  method RunPipeline(aead: Aead, s: Surroundings, stored: seq<Byte>, emitter: Emitter, ghost sealedBlocks: seq<Block>)
    returns (err: Option<RestoreError>, piped: seq<Byte>, restoreSucceeded: bool)
    requires emitter.chunks == [Preparing]
    modifies emitter
    ensures restoreSucceeded <==> err.None?
    ensures Finished(RESTORE_STAGES, emitter.chunks, err.None?)
    ensures err.None? && s.sourceReliable ==> Decode(aead, 0, stored) == Decoded(piped, Eof)
    ensures err.None? <== s.sourceOpens && s.toolStarts && s.sourceReliable && s.stdinAccepts && s.exitsCleanly
      && Decode(aead, 0, stored).ending == Eof
    ensures aead.OpensOnly(Log(aead, 0, sealedBlocks)) && |sealedBlocks| < Pow256(AAD_SIZE) ==>
      Beginning(sealedBlocks, piped, err.None?)
    ensures err.None? ==> s.sourceOpens && s.toolStarts && s.exitsCleanly
  {
    assert [] <= Text(sealedBlocks[..0]);
    if !s.sourceOpens {
      emitter.Emit(Failed);
      assert emitter.chunks == RESTORE_STAGES[..1] + [Failed];
      return Some(NoSource), [], false;
    }
    emitter.Emit(Downloading);
    if !s.toolStarts {
      emitter.Emit(Failed);
      assert emitter.chunks == RESTORE_STAGES[..2] + [Failed];
      return Some(NotStarted), [], false;
    }
    emitter.Emit(Restoring);
    assert emitter.chunks == Ticked(RESTORE_STAGES, 0);
    var src := new Source(stored, s.sourceReliable);
    var d := new StreamDecrypter(aead, src, sealedBlocks);
    var ok;
    piped, ok := Pump(d, s.stdinAccepts);
    assert piped <= d.Got();
    var stdinCloses: bool := *;
    ok := ok && (s.stdinAccepts || stdinCloses);
    ghost var k := emitter.Ticks(RESTORE_STAGES, 0);
    if !ok {
      emitter.Emit(Failed);
      return Some(CopyFailed), piped, false;
    }
    if !s.exitsCleanly {
      emitter.Emit(Failed);
      return Some(ToolFailed), piped, false;
    }
    assert d.Got() == piped;
    emitter.Emit(Completed);
    return None, piped, true;
  }

  /** Export, and then restore what arrives of the object: all of it, or whatever `channel` makes of it.
      The export succeeds unless the surroundings or the store fail it. The object it leaves is the
      canonical encryption of the dump. If what was sealed opens, it decodes to the dump, and restoring
      it pipes exactly the dump, whatever the sizes of the writes, the parts, the reads and the short
      reads. If in addition nothing else opens, whatever arrives, what is piped is a beginning of the
      dump. */
  method ExportThenRestore(
    aead: Aead, es: Export.Surroundings, reliable: bool, channel: seq<Byte> -> seq<Byte>, rs: Surroundings)
    returns (exported: bool, stored: seq<Byte>, restored: bool, piped: seq<Byte>, ghost blocks: seq<Block>)
    requires aead.Tagged()
    ensures exported ==>
      var text := Flatten(es.writes + es.trailer);
      && Plains(blocks) == Chunks(BLOCK_SIZE, text)
      && |stored| == |text| + 32 * CeilDiv(|text|, BLOCK_SIZE)
      && (aead.OpensAll(Log(aead, 0, blocks)) ==> Decode(aead, 0, stored) == Decoded(text, Eof))
    ensures restored ==> exported
    ensures restored && aead.OpensAll(Log(aead, 0, blocks)) && channel(stored) == stored && rs.sourceReliable ==>
      piped == Flatten(es.writes + es.trailer)
    ensures aead.OpensOnly(Log(aead, 0, blocks)) && |blocks| < Pow256(AAD_SIZE) ==> Beginning(blocks, piped, restored)
    ensures es.Fine() && reliable ==> exported
    ensures exported && aead.OpensAll(Log(aead, 0, blocks)) && channel(stored) == stored && rs.Fine() ==> restored
  {
    piped := [];
    var api := new MultipartApi(reliable);
    var emitter := new Emitter();
    var err, size, sink;
    err, size, sink, blocks := Export.OpExportDump(aead, es, api, emitter);
    assert [] <= Text(blocks[..0]);
    if err.Some? {
      return false, [], false, [], blocks;
    }
    exported := true;
    stored := Object(api.puts, sink.value.parts);
    StoredObject(aead, blocks, Flatten(es.writes + es.trailer));

    emitter := new Emitter();
    var target := new Target(false);
    var rerr;
    rerr, piped := OpRestoreDump(aead, rs, channel(stored), target, emitter, blocks);
    restored := rerr.None?;
  }

  /** The canonical encryption of a text: its exact size, which is that of the text and 32 bytes for
      each block, the least number of blocks that hold it; and that it decodes to the text. */
  lemma {:induction false} StoredObject(aead: Aead, blocks: seq<Block>, text: seq<Byte>)
    requires aead.Tagged() && ValidBlocks(blocks)
    requires Plains(blocks) == Chunks(BLOCK_SIZE, text)
    ensures |Encode(aead, 0, blocks)| == |text| + 32 * CeilDiv(|text|, BLOCK_SIZE)
    ensures |text| <= BLOCK_SIZE * CeilDiv(|text|, BLOCK_SIZE) < |text| + BLOCK_SIZE
    ensures aead.OpensAll(Log(aead, 0, blocks)) ==> Decode(aead, 0, Encode(aead, 0, blocks)) == Decoded(text, Eof)
  {
    ChunksShape(BLOCK_SIZE, text);
    CeilDivBounds(|text|, BLOCK_SIZE);
    EncodeSize(aead, 0, blocks);
    if aead.OpensAll(Log(aead, 0, blocks)) {
      LogOpens(aead, blocks);
      DecodeEncode(aead, 0, blocks);
    }
  }
}
