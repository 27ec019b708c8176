/** The streaming encrypter: cuts the plaintext into 1 MiB blocks and writes one frame per block
    into the uploader. */
module Encrypter {
  import opened Wrappers
  import opened Bytes
  import opened Frames
  import opened Uploader

  datatype EncryptError = WriteOnClosedEncrypter | NoRandomness | SinkFailed(cause: UploadError)

  /** `blocks` and then `buf` is `text` in the shape the encrypter gives it. */
  ghost predicate Cut(blocks: seq<Block>, buf: seq<Byte>, text: seq<Byte>) {
    && ValidBlocks(blocks)
    && FullButLast(BLOCK_SIZE, Plains(blocks))
    && Text(blocks) + buf == text
    && |buf| <= BLOCK_SIZE
  }

  lemma {:induction false} CutGrows(blocks: seq<Block>, buf: seq<Byte>, text: seq<Byte>, q: seq<Byte>)
    requires Cut(blocks, buf, text) && |buf| + |q| <= BLOCK_SIZE
    ensures Cut(blocks, buf + q, text + q)
  {
    assert Text(blocks) + (buf + q) == (Text(blocks) + buf) + q;
  }

  ghost predicate AllFull(blocks: seq<Block>) {
    forall b :: b in blocks ==> |b.plain| == BLOCK_SIZE
  }

  class StreamEncrypter {
    const aead: Aead
    const out: ChunkUploader
    const randomWorks: bool  // reading random bytes never fails
    var blockBuf: seq<Byte>
    var blockIdx: nat  // stored as 8 bytes: Aad keeps the low 64 bits
    var closed: bool
    ghost var accepted: seq<Byte>  // all plaintext taken from callers of Write
    ghost var blocks: seq<Block>  // the blocks flushed so far
    ghost var torn: bool  // a write to the sink has failed

    /** The plaintext taken is the flushed blocks and then the buffer. All flushed blocks are full,
        but the one that Close flushes. The sink has got exactly their frames, and after a failed
        sink write possibly a piece of one more; then it takes nothing else. */
    ghost predicate Valid()
      reads this, out, out.api
    {
      && out.Valid()
      && blockIdx == |blocks|
      && Cut(blocks, blockBuf, accepted)
      && (!closed ==> AllFull(blocks))
      && Encode(aead, 0, blocks) <= out.accepted
      && (!torn ==> out.accepted == Encode(aead, 0, blocks))
      && (torn ==> out.closed || out.completeErr.Some?)
    }

    constructor (aead: Aead, out: ChunkUploader, randomWorks: bool)
      requires out.Valid() && out.accepted == []
      ensures Valid() && fresh(this) && this.aead == aead && this.out == out && this.randomWorks == randomWorks
      ensures accepted == [] && !closed && !torn
    {
      this.aead, this.out, this.randomWorks := aead, out, randomWorks;
      blockBuf, blockIdx, closed := [], 0, false;
      accepted, blocks, torn := [], [], false;
    }

    method RandomNonce() returns (nonce: Option<seq<Byte>>)
      ensures nonce.Some? ==> |nonce.value| == NONCE_SIZE
      ensures randomWorks ==> nonce.Some?
    {
      var fails: bool := *;
      if fails && !randomWorks {
        return None;
      }
      assert |seq(NONCE_SIZE, _ => 0 as Byte)| == NONCE_SIZE;
      var bytes: seq<Byte> :| |bytes| == NONCE_SIZE;
      nonce := Some(bytes);
    }

    /** Writes the three pieces of a frame, stopping at the first failure. */
    method WriteFrame(nonce: seq<Byte>, lenPrefix: seq<Byte>, ct: seq<Byte>) returns (err: Option<UploadError>)
      requires out.Valid()
      modifies out, out.api`puts
      ensures out.Valid()
      ensures out.closed == old(out.closed) && out.aborted == old(out.aborted)
      ensures old(out.accepted) <= out.accepted
      ensures old(out.closed) || old(out.completeErr).Some? ==> err.Some? && out.accepted == old(out.accepted)
      ensures err.None? ==> out.accepted == old(out.accepted) + (nonce + lenPrefix + ct)
      ensures err.None? <==> !out.closed && out.completeErr.None?
      ensures out.api.reliable && !out.closed ==> err.None?
    {
      var n;
      n, err := out.Write(nonce);
      if err.None? {
        n, err := out.Write(lenPrefix);
        if err.None? {
          n, err := out.Write(ct);
        }
      }
    }

    /** Seals the buffer and writes its frame. */
    method SealAndWrite(nonce: seq<Byte>) returns (err: Option<UploadError>)
      requires out.Valid()
      modifies out, out.api`puts
      ensures out.Valid()
      ensures out.closed == old(out.closed) && out.aborted == old(out.aborted)
      ensures old(out.accepted) <= out.accepted
      ensures old(out.closed) || old(out.completeErr).Some? ==> err.Some? && out.accepted == old(out.accepted)
      ensures err.None? ==> out.accepted == old(out.accepted) + Frame(aead, blockIdx, Block(nonce, blockBuf))
      ensures err.None? <==> !out.closed && out.completeErr.None?
      ensures out.api.reliable && !out.closed ==> err.None?
    {
      var ct := aead.seal(nonce, Aad(blockIdx), blockBuf);
      var lenPrefix := BigEndian(LEN_PREFIX_SIZE, |ct|);
      assert Frame(aead, blockIdx, Block(nonce, blockBuf)) == nonce + lenPrefix + ct;
      err := WriteFrame(nonce, lenPrefix, ct);
    }

    /** flushBlock: the buffer becomes the next block. */
    method FlushBlock() returns (err: Option<EncryptError>)
      requires Valid()
      requires |blockBuf| > 0 && (closed || |blockBuf| == BLOCK_SIZE)
      requires AllFull(blocks)
      modifies this`blockBuf, this`blockIdx, this`blocks, this`torn, out, out.api`puts
      ensures Valid()
      ensures out.closed == old(out.closed) && out.aborted == old(out.aborted)
      ensures err.None? ==> blockBuf == [] && !torn && !old(torn)
      ensures err.None? ==> exists nonce :: blocks == old(blocks) + [Block(nonce, old(blockBuf))]
      ensures err.Some? ==> blockBuf == old(blockBuf) && blocks == old(blocks)
      ensures randomWorks && out.api.reliable && !out.closed ==> err.None?
    {
      var nonce := RandomNonce();
      if nonce.None? {
        return Some(NoRandomness);
      }
      ghost var b := Block(nonce.value, blockBuf);
      BlockFlushed(aead, blocks, b, accepted);
      var e := SealAndWrite(nonce.value);
      if e.Some? {
        torn := true;
        return Some(SinkFailed(e.value));
      }
      blocks := blocks + [b];
      blockBuf := [];
      blockIdx := blockIdx + 1;
      err := None;
    }

    /** Takes what fits into the buffer; a full buffer is flushed. */
    method Absorb(q: seq<Byte>) returns (err: Option<EncryptError>)
      requires Valid() && !closed && |blockBuf| + |q| <= BLOCK_SIZE
      modifies this`blockBuf, this`blockIdx, this`blocks, this`torn, this`accepted, out, out.api`puts
      ensures Valid()
      ensures out.closed == old(out.closed) && out.aborted == old(out.aborted)
      ensures accepted == old(accepted) + q
      ensures err.None? ==> torn == old(torn) && |blockBuf| < BLOCK_SIZE
      ensures randomWorks && out.api.reliable && !out.closed ==> err.None?
    {
      CutGrows(blocks, blockBuf, accepted, q);
      blockBuf := blockBuf + q;
      accepted := accepted + q;
      err := None;
      if |blockBuf| == BLOCK_SIZE {
        err := FlushBlock();
      }
    }

    /** Takes `p` into the buffer, flushing every block that fills up. */
    method Write(p: seq<Byte>) returns (n: nat, err: Option<EncryptError>)
      requires Valid()
      modifies this`blockBuf, this`blockIdx, this`blocks, this`torn, this`accepted, out, out.api`puts
      ensures Valid()
      ensures out.closed == old(out.closed) && out.aborted == old(out.aborted)
      ensures closed ==> n == 0 && err == Some(WriteOnClosedEncrypter)
      ensures n <= |p| && accepted == old(accepted) + p[..n]
      ensures err.None? ==> n == |p| && torn == old(torn)
      ensures randomWorks && out.api.reliable && !out.closed && !closed ==> err.None?
    {
      if closed {
        return 0, Some(WriteOnClosedEncrypter);
      }
      n, err := 0, None;
      while n < |p|
        invariant n <= |p|
        invariant Valid() && !closed
        invariant out.closed == old(out.closed) && out.aborted == old(out.aborted)
        invariant torn == old(torn)
        invariant err.None?
        invariant accepted == old(accepted) + p[..n]
        decreases |p| - n, |blockBuf|
      {
        var room := BLOCK_SIZE - |blockBuf|;
        var take := if |p| - n > room then room else |p| - n;
        err := Absorb(p[n..n + take]);
        OneMorePiece(old(accepted), p, n, take);
        n := n + take;
        if err.Some? {
          return;
        }
      }
    }

    /** Flushes the partial block, if any. The sink stays open. */
    method Close() returns (err: Option<EncryptError>)
      requires Valid()
      modifies this`blockBuf, this`blockIdx, this`blocks, this`torn, this`closed, out, out.api`puts
      ensures Valid() && closed
      ensures out.closed == old(out.closed) && out.aborted == old(out.aborted)
      ensures old(closed) ==> err.None? && blocks == old(blocks) && out.accepted == old(out.accepted)
      ensures !old(closed) && err.None? ==> blockBuf == [] && torn == old(torn)
      ensures !old(closed) && err.None? ==> Plains(blocks) == Chunks(BLOCK_SIZE, accepted)
      ensures randomWorks && out.api.reliable && !out.closed ==> err.None?
    {
      if closed {
        return None;
      }
      closed := true;
      if |blockBuf| == 0 {
        err := None;
      } else {
        err := FlushBlock();
      }
      if err.None? {
        assert Text(blocks) == accepted;
        ChunksUnique(BLOCK_SIZE, Plains(blocks));
      }
    }
  }

  lemma {:induction false} OneMorePiece(before: seq<Byte>, p: seq<Byte>, n: nat, take: nat)
    requires n + take <= |p|
    ensures before + p[..n] + p[n..n + take] == before + p[..n + take]
  {
    assert p[..n] + p[n..n + take] == p[..n + take];
  }

  /** Appending one block keeps the shape of the stream. */
  lemma {:induction false} BlockFlushed(aead: Aead, blocks: seq<Block>, b: Block, text: seq<Byte>)
    requires Cut(blocks, b.plain, text) && AllFull(blocks)
    requires |b.nonce| == NONCE_SIZE && b.plain != []
    ensures Cut(blocks + [b], [], text)
    ensures |b.plain| == BLOCK_SIZE ==> AllFull(blocks + [b])
    ensures Encode(aead, 0, blocks + [b]) == Encode(aead, 0, blocks) + Frame(aead, |blocks|, b)
  {
    EncodeSnoc(aead, 0, blocks, b);
    assert Text(blocks + [b]) + [] == Text(blocks + [b]);
  }
}
