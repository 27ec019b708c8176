/** The streaming decrypter: reads frames from a source that may return short reads, opens them,
    and serves the plaintext to reads of any size. */
module Decrypter {
  import opened Wrappers
  import opened Bytes
  import opened Frames

  datatype IoError = IoEof | IoUnexpectedEof | IoOther

  /** The ciphertext source. Each read returns some of what is left; a source that is not reliable
      may also fail at any time. */
  class Source {
    const reliable: bool
    var rest: seq<Byte>

    constructor (data: seq<Byte>, reliable: bool)
      ensures rest == data && this.reliable == reliable
    {
      this.rest, this.reliable := data, reliable;
    }

    /** Reads into `buf[from..]`: any non-zero amount up to the room there is. The end of the
        stream may come with the last bytes or on its own. */
    method Read(buf: array<Byte>, from: nat) returns (n: nat, err: Option<IoError>)
      requires from < buf.Length
      modifies this, buf
      ensures n <= buf.Length - from && n <= |old(rest)|
      ensures buf[..] == old(buf[..from]) + old(rest)[..n] + old(buf[from + n..])
      ensures rest == old(rest)[n..]
      ensures err.None? ==> n > 0
      ensures err.Some? ==> err.value != IoUnexpectedEof
      ensures err == Some(IoEof) ==> rest == []
      ensures reliable ==> err.None? || err == Some(IoEof)
    {
      var fails: bool := *;
      if fails && !reliable {
        return 0, Some(IoOther);
      }
      if |rest| == 0 {
        return 0, Some(IoEof);
      }
      n :| 0 < n <= |rest| && n <= buf.Length - from;
      forall k | 0 <= k < n {
        buf[from + k] := rest[k];
      }
      rest := rest[n..];
      var atOnce: bool := *;
      err := if rest == [] && atOnce then Some(IoEof) else None;
    }
  }

  /** io.ReadFull: fills `buf`, looping over short reads. */
  method ReadFull(src: Source, buf: array<Byte>) returns (n: nat, err: Option<IoError>)
    modifies src, buf
    ensures n <= buf.Length && n <= |old(src.rest)|
    ensures src.rest == old(src.rest)[n..]
    ensures buf[..n] == old(src.rest)[..n]
    ensures err.None? <==> n == buf.Length
    ensures src.reliable && err.Some? ==>
      n == |old(src.rest)| && err.value == if n == 0 then IoEof else IoUnexpectedEof
  {
    n, err := 0, None;
    while n < buf.Length && err.None?
      invariant n <= buf.Length && n <= |old(src.rest)|
      invariant src.rest == old(src.rest)[n..]
      invariant buf[..n] == old(src.rest)[..n]
      invariant err.Some? ==> err.value != IoUnexpectedEof
      invariant err == Some(IoEof) ==> src.rest == []
      invariant src.reliable && err.Some? ==> err == Some(IoEof)
      decreases buf.Length - n, err.None?
    {
      var got;
      ghost var before := buf[..n];
      got, err := src.Read(buf, n);
      assert buf[..n + got] == before + old(src.rest)[n..n + got];
      n := n + got;
    }
    if n == buf.Length {
      err := None;
    } else if n > 0 && err == Some(IoEof) {
      err := Some(IoUnexpectedEof);
    }
  }

  /** The reader's errors; a wrapped I/O error keeps its cause. */
  datatype StreamError =
    | CleanEof
    | ShortNonce(got: nat)
    | ReadNonce(cause: IoError)
    | ReadLength(cause: IoError)
    | BelowOverhead(len: nat)
    | TooLong(len: nat)
    | ReadCiphertext(cause: IoError)
    | NotAuthentic
  {
    /** errors.Is(err, io.EOF): looks through every wrapper that keeps its cause. */
    predicate IsEof() {
      match this
      case CleanEof => true
      case ReadNonce(c) => c == IoEof
      case ReadLength(c) => c == IoEof
      case ReadCiphertext(c) => c == IoEof
      case _ => false
    }

    function Ending(): Ending {
      if IsEof() then Eof else Damaged
    }
  }

  /** What has been opened and what the rest of the source decodes to make up the whole stream. */
  ghost predicate InStep(aead: Aead, whole: Decoded, idx: nat, eof: bool, rest: seq<Byte>, got: seq<Byte>) {
    whole == if eof then Decoded(got, Eof) else Decode(aead, idx, rest).After(got)
  }

  /** If only sealed blocks open, then what has been opened is the first `idx` blocks. */
  ghost predicate Authentic(aead: Aead, blocks: seq<Block>, idx: nat, got: seq<Byte>) {
    aead.OpensOnly(Log(aead, 0, blocks)) && |blocks| < Pow256(AAD_SIZE) ==>
      idx <= |blocks| && got == Text(blocks[..idx])
  }

  class StreamDecrypter {
    const aead: Aead
    const src: Source
    var blockIdx: nat
    var plainBuf: seq<Byte>
    var plainPos: nat
    var eof: bool
    ghost const whole: Decoded  // what the stream decodes to, from its first byte
    ghost const sealedBlocks: seq<Block>  // the blocks of some export made with this key
    ghost var delivered: seq<Byte>  // all bytes returned by Read
    ghost var failed: bool  // Read has returned an error that is not the end of the stream

    /** What has been opened: the bytes delivered and then the bytes still in the buffer. */
    ghost function Got(): seq<Byte>
      requires plainPos <= |plainBuf|
      reads this
    {
      delivered + plainBuf[plainPos..]
    }

    ghost predicate Valid()
      reads this, src
    {
      && plainPos <= |plainBuf|
      && (src.reliable && !failed ==> InStep(aead, whole, blockIdx, eof, src.rest, Got()))
      && Authentic(aead, sealedBlocks, blockIdx, Got())
    }

    constructor (aead: Aead, src: Source, ghost sealedBlocks: seq<Block>)
      ensures Valid() && fresh(this) && this.aead == aead && this.src == src && this.sealedBlocks == sealedBlocks
      ensures whole == Decode(aead, 0, src.rest)
      ensures delivered == [] && !failed && !eof && plainBuf == []
    {
      this.aead, this.src, this.sealedBlocks := aead, src, sealedBlocks;
      blockIdx, plainBuf, plainPos, eof := 0, [], 0, false;
      whole := Decode(aead, 0, src.rest);
      delivered, failed := [], false;
      new;
      AfterNothing(whole);
      assert Got() == [];
      assert Plains(sealedBlocks[..0]) == [];
    }

    /** Reads the three pieces of one frame and opens it. */
    method ReadFrame() returns (plain: Result<seq<Byte>, StreamError>)
      modifies src
      ensures |src.rest| <= |old(src.rest)|
      ensures plain.Success? ==> |src.rest| < |old(src.rest)|
      ensures plain.Success? ==> exists n, c :: aead.open(n, Aad(blockIdx), c) == Some(plain.value)
      ensures src.reliable ==>
        match Frames.NextFrame(aead, blockIdx, old(src.rest))
        case Opened(p, r) => plain == Success(p) && src.rest == r
        case Stop(e) => plain.Failure? && plain.error.Ending() == e
    {
      ghost var s := src.rest;
      var nonce := new Byte[NONCE_SIZE](_ => 0);
      var n, e := ReadFull(src, nonce);
      if e.Some? {
        if e.value == IoEof && n == 0 {
          return Failure(CleanEof);
        } else if e.value == IoEof || e.value == IoUnexpectedEof {
          return Failure(ShortNonce(n));
        }
        return Failure(ReadNonce(e.value));
      }
      assert nonce[..] == nonce[..n] == s[..NONCE_SIZE];

      var lenBuf := new Byte[LEN_PREFIX_SIZE](_ => 0);
      n, e := ReadFull(src, lenBuf);
      if e.Some? {
        return Failure(ReadLength(e.value));
      }
      assert lenBuf[..] == lenBuf[..n] == s[NONCE_SIZE..NONCE_SIZE + LEN_PREFIX_SIZE];
      var ctLen := FromBigEndian(lenBuf[..]);
      if ctLen < OVERHEAD {
        return Failure(BelowOverhead(ctLen));
      }
      if ctLen > MAX_FRAME_SIZE {
        return Failure(TooLong(ctLen));
      }

      var ct := new Byte[ctLen](_ => 0);
      n, e := ReadFull(src, ct);
      if e.Some? {
        return Failure(ReadCiphertext(e.value));
      }
      assert ct[..] == ct[..n] == s[NONCE_SIZE + LEN_PREFIX_SIZE..][..ctLen];

      var answer := aead.open(nonce[..], Aad(blockIdx), ct[..]);
      plain := if answer.None? then Failure(NotAuthentic) else Success(answer.value);
    }

    /** Reads and opens one frame into the buffer. */
    method NextFrame() returns (err: Option<StreamError>)
      requires Valid() && plainPos == |plainBuf| && !eof
      modifies this`plainBuf, this`plainPos, this`blockIdx, src
      ensures plainPos <= |plainBuf| && Authentic(aead, sealedBlocks, blockIdx, Got())
      ensures err.None? ==> Valid() && plainPos == 0
      ensures err.None? ==> |src.rest| < |old(src.rest)|
      ensures err.Some? ==> plainPos == |plainBuf|
      ensures err.Some? && src.reliable && !failed ==> whole == Decoded(delivered, err.value.Ending())
    {
      assert Got() == delivered;
      if src.reliable && !failed {
        FrameInStep(aead, whole, blockIdx, src.rest, delivered);
      }
      var plain := ReadFrame();
      if plain.Failure? {
        return Some(plain.error);
      }
      FrameAuthentic(aead, sealedBlocks, blockIdx, delivered, plain.value);
      plainBuf := plain.value;
      plainPos := 0;
      blockIdx := blockIdx + 1;
      assert Got() == delivered + plain.value;
      err := None;
    }

    /** Fills the front of `p` from the current block, after fetching the next one if needed. */
    method Read(p: array<Byte>) returns (n: nat, err: Option<StreamError>)
      requires Valid()
      modifies this, src, p
      ensures Valid()
      ensures n <= p.Length && p[n..] == old(p[n..])
      ensures delivered == old(delivered) + p[..n]
      ensures err.Some? ==> n == 0 && plainPos == |plainBuf|
      ensures p.Length == 0 ==> err.None?
      ensures failed == (old(failed) || (err.Some? && !err.value.IsEof()))
      ensures err.Some? && err.value.IsEof() ==> eof && err == Some(CleanEof)
      ensures src.reliable && !old(failed) && err.Some? ==> whole == Decoded(delivered, err.value.Ending())
      ensures p.Length > 0 && err.None? ==>
        || |src.rest| < |old(src.rest)|
        || (src.rest == old(src.rest) && |plainBuf| - plainPos < old(|plainBuf| - plainPos))
    {
      if p.Length == 0 {
        return 0, None;
      }
      if plainPos < |plainBuf| {
        n := Drain(p);
        return n, None;
      }
      if eof {
        assert Got() == delivered;
        return 0, Some(CleanEof);
      }
      var e := NextFrame();
      if e.Some? {
        assert Got() == delivered;
        if e.value.IsEof() {
          eof := true;
          return 0, Some(CleanEof);
        }
        failed := true;
        return 0, e;
      }
      n := Drain(p);
      err := None;
    }

    /** copy(p, plainBuf[plainPos..]) */
    method Drain(p: array<Byte>) returns (n: nat)
      requires plainPos <= |plainBuf|
      modifies this`plainPos, this`delivered, p
      ensures plainPos == old(plainPos) + n <= |plainBuf|
      ensures n == if p.Length < |plainBuf| - old(plainPos) then p.Length else |plainBuf| - old(plainPos)
      ensures p[..n] == plainBuf[old(plainPos)..plainPos] && p[n..] == old(p[n..])
      ensures delivered == old(delivered) + p[..n]
      ensures Got() == old(Got())
    {
      n := if p.Length < |plainBuf| - plainPos then p.Length else |plainBuf| - plainPos;
      forall k | 0 <= k < n {
        p[k] := plainBuf[plainPos + k];
      }
      delivered := delivered + plainBuf[plainPos..plainPos + n];
      plainPos := plainPos + n;
    }
  }

  /** Reading one frame of the rest of the stream keeps the account. */
  lemma {:induction false} FrameInStep(aead: Aead, whole: Decoded, idx: nat, rest: seq<Byte>, got: seq<Byte>)
    requires InStep(aead, whole, idx, false, rest, got)
    ensures match Frames.NextFrame(aead, idx, rest)
      case Opened(p, r) => InStep(aead, whole, idx + 1, false, r, got + p)
      case Stop(e) => whole == Decoded(got, e)
  {
    match Frames.NextFrame(aead, idx, rest)
    case Opened(p, r) => Regroup(got, p, Decode(aead, idx + 1, r).text);
    case Stop(e) => assert got + [] == got;
  }

  /** Whatever frame opens next carries the next block of the export. */
  lemma {:induction false} FrameAuthentic(
    aead: Aead, blocks: seq<Block>, idx: nat, got: seq<Byte>, plain: seq<Byte>)
    requires Authentic(aead, blocks, idx, got)
    requires exists n, c :: aead.open(n, Aad(idx), c) == Some(plain)
    ensures Authentic(aead, blocks, idx + 1, got + plain)
  {
    if aead.OpensOnly(Log(aead, 0, blocks)) && |blocks| < Pow256(AAD_SIZE) {
      NextOfLog(aead, blocks, idx, plain);
      TextNext(aead, blocks, idx);
    }
  }

  lemma {:induction false} NextOfLog(aead: Aead, blocks: seq<Block>, idx: nat, plain: seq<Byte>)
    requires aead.OpensOnly(Log(aead, 0, blocks)) && |blocks| < Pow256(AAD_SIZE) && idx <= |blocks|
    requires exists n, c :: aead.open(n, Aad(idx), c) == Some(plain)
    ensures idx < |blocks| && plain == blocks[idx].plain
  {
    var n, c :| aead.open(n, Aad(idx), c) == Some(plain);
    OpenedIsLogged(aead, blocks, idx, n, c);
  }

  lemma {:induction false} TextNext(aead: Aead, blocks: seq<Block>, idx: nat)
    requires idx < |blocks|
    ensures Text(blocks[..idx + 1]) == Text(blocks[..idx]) + blocks[idx].plain
  {
    assert blocks[..idx + 1] == blocks[..idx] + [blocks[idx]];
    EncodeSnoc(aead, 0, blocks[..idx], blocks[idx]);
  }
}
