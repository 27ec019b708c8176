/** The on-disk format of an encrypted dump and its reader, on byte sequences.
    A stream is a run of frames: 12-byte nonce, 4-byte big-endian ciphertext length, ciphertext.
    Frame number k is sealed with k, as 8 big-endian bytes, as additional authenticated data. */
module Frames {
  import opened Wrappers
  import opened Bytes

  const NONCE_SIZE := 12
  const LEN_PREFIX_SIZE := 4
  const AAD_SIZE := 8
  const OVERHEAD := 16
  const BLOCK_SIZE := 0x10_0000
  const MAX_FRAME_SIZE := BLOCK_SIZE + 64

  /** An AEAD under one fixed key (sections 7.1 and 7.2 of NIST SP 800-38D): arguments are
      nonce, additional data and text, in that order. */
  datatype Aead = Aead(
    seal: (seq<Byte>, seq<Byte>, seq<Byte>) -> seq<Byte>,
    open: (seq<Byte>, seq<Byte>, seq<Byte>) -> Option<seq<Byte>>)
  {
    /** A tag is 16 bytes. */
    ghost predicate Tagged() {
      forall n, a, p :: |seal(n, a, p)| == |p| + OVERHEAD
    }

    /** Functional correctness: what was sealed opens to its plaintext. */
    ghost predicate OpensAll(log: seq<Sealed>) {
      forall k :: 0 <= k < |log| ==> open(log[k].nonce, log[k].aad, log[k].ciphertext) == Some(log[k].plain)
    }

    /** Authenticity: whatever opens was sealed before, and `log` holds all that was sealed. */
    ghost predicate OpensOnly(log: seq<Sealed>) {
      forall n, a, c :: open(n, a, c).Some? ==> Sealed(n, a, c, open(n, a, c).value) in log
    }

    /** The cipher under a key that was used for `log` and nothing else. */
    ghost predicate Ideal(log: seq<Sealed>) {
      Tagged() && OpensAll(log) && OpensOnly(log)
    }
  }

  /** One call of `seal`: its inputs and its ciphertext. */
  datatype Sealed = Sealed(nonce: seq<Byte>, aad: seq<Byte>, ciphertext: seq<Byte>, plain: seq<Byte>)

  /** What one frame carries: the random nonce drawn for it and its plaintext. */
  datatype Block = Block(nonce: seq<Byte>, plain: seq<Byte>)

  function Aad(idx: nat): (a: seq<Byte>) {
    BigEndian(AAD_SIZE, idx)
  }

  function Frame(aead: Aead, idx: nat, b: Block): seq<Byte> {
    var ct := aead.seal(b.nonce, Aad(idx), b.plain);
    b.nonce + BigEndian(LEN_PREFIX_SIZE, |ct|) + ct
  }

  /** The frames of `blocks`, the first of them being number `idx` of the stream. */
  function Encode(aead: Aead, idx: nat, blocks: seq<Block>): seq<Byte>
    decreases |blocks|
  {
    if blocks == [] then [] else Frame(aead, idx, blocks[0]) + Encode(aead, idx + 1, blocks[1..])
  }

  function Plains(blocks: seq<Block>): (ps: seq<seq<Byte>>)
    ensures |ps| == |blocks| && forall k :: 0 <= k < |ps| ==> ps[k] == blocks[k].plain
  {
    seq(|blocks|, k requires 0 <= k < |blocks| => blocks[k].plain)
  }

  /** The plaintext the blocks carry. */
  function Text(blocks: seq<Block>): seq<Byte> {
    Flatten(Plains(blocks))
  }

  ghost predicate ValidBlock(b: Block) {
    |b.nonce| == NONCE_SIZE && |b.plain| <= BLOCK_SIZE
  }

  ghost predicate ValidBlocks(blocks: seq<Block>) {
    forall b :: b in blocks ==> ValidBlock(b)
  }

  /** What the encrypter has passed to `seal` when it has written `blocks`, from number `idx` on. */
  function Log(aead: Aead, idx: nat, blocks: seq<Block>): (log: seq<Sealed>)
    ensures |log| == |blocks|
    ensures forall k :: 0 <= k < |log| ==> log[k] == SealOf(aead, idx + k, blocks[k])
    decreases |blocks|
  {
    if blocks == [] then [] else [SealOf(aead, idx, blocks[0])] + Log(aead, idx + 1, blocks[1..])
  }

  function SealOf(aead: Aead, idx: nat, b: Block): Sealed {
    Sealed(b.nonce, Aad(idx), aead.seal(b.nonce, Aad(idx), b.plain), b.plain)
  }

  /** Block `b` as number `idx` opens; this is `OpensAll` for one seal. */
  ghost predicate Opens(aead: Aead, idx: nat, b: Block) {
    aead.open(b.nonce, Aad(idx), aead.seal(b.nonce, Aad(idx), b.plain)) == Some(b.plain)
  }

  ghost predicate OpensEach(aead: Aead, idx: nat, blocks: seq<Block>) {
    forall k :: 0 <= k < |blocks| ==> Opens(aead, idx + k, blocks[k])
  }

  lemma {:induction false} LogOpens(aead: Aead, blocks: seq<Block>)
    requires aead.OpensAll(Log(aead, 0, blocks))
    ensures OpensEach(aead, 0, blocks)
  {
    var log := Log(aead, 0, blocks);
    forall k | 0 <= k < |blocks|
      ensures Opens(aead, 0 + k, blocks[k])
    {
      assert log[k] == SealOf(aead, 0 + k, blocks[k]);
    }
  }

  // ---------- an ideal cipher exists ----------

  function ToyTag(): (t: seq<Byte>)
    ensures |t| == OVERHEAD
  {
    seq(OVERHEAD, _ => 0)
  }

  function Lookup(log: seq<Sealed>, n: seq<Byte>, a: seq<Byte>, c: seq<Byte>): Option<seq<Byte>> {
    if log == [] then None
    else if log[0] == Sealed(n, a, c, log[0].plain) then Some(log[0].plain)
    else Lookup(log[1..], n, a, c)
  }

  lemma {:induction false} LookupFinds(log: seq<Sealed>, n: seq<Byte>, a: seq<Byte>, c: seq<Byte>)
    ensures Lookup(log, n, a, c).Some? ==> Sealed(n, a, c, Lookup(log, n, a, c).value) in log
    ensures forall p :: Sealed(n, a, c, p) in log ==> Lookup(log, n, a, c).Some?
  {
    if log != [] {
      LookupFinds(log[1..], n, a, c);
    }
  }

  lemma {:induction false} LogBySeal(x: Aead, y: Aead, idx: nat, blocks: seq<Block>)
    requires x.seal == y.seal
    ensures Log(x, idx, blocks) == Log(y, idx, blocks)
    decreases |blocks|
  {
    if blocks != [] {
      LogBySeal(x, y, idx + 1, blocks[1..]);
    }
  }

  /** The hypotheses of the round trip and of authenticity hold together: for the blocks of every
      export there is a cipher that satisfies both. */
  lemma {:induction false} IdealExists(blocks: seq<Block>) returns (aead: Aead)
    ensures aead.Ideal(Log(aead, 0, blocks))
  {
    var seal := (n: seq<Byte>, a: seq<Byte>, p: seq<Byte>) => p + ToyTag();
    var log := Log(Aead(seal, (n, a, c) => None), 0, blocks);
    aead := Aead(seal, (n, a, c) => Lookup(log, n, a, c));
    LogBySeal(Aead(seal, (n, a, c) => None), aead, 0, blocks);
    forall n, a, c
      ensures aead.open(n, a, c).Some? ==> Sealed(n, a, c, aead.open(n, a, c).value) in log
    {
      LookupFinds(log, n, a, c);
    }
    forall k | 0 <= k < |log|
      ensures aead.open(log[k].nonce, log[k].aad, log[k].ciphertext) == Some(log[k].plain)
    {
      var e := log[k];
      LookupFinds(log, e.nonce, e.aad, e.ciphertext);
      var p := Lookup(log, e.nonce, e.aad, e.ciphertext).value;
      var j :| 0 <= j < |log| && log[j] == Sealed(e.nonce, e.aad, e.ciphertext, p);
      SamePlain(aead, 0, blocks, j, k);
    }
  }

  /** Under the toy seal, equal ciphertexts have equal plaintexts. */
  lemma {:induction false} SamePlain(aead: Aead, idx: nat, blocks: seq<Block>, j: nat, k: nat)
    requires j < |blocks| && k < |blocks|
    requires forall n, a, p :: aead.seal(n, a, p) == p + ToyTag()
    requires Log(aead, idx, blocks)[j].ciphertext == Log(aead, idx, blocks)[k].ciphertext
    ensures Log(aead, idx, blocks)[j].plain == Log(aead, idx, blocks)[k].plain
  {
    var (p, q) := (blocks[j].plain, blocks[k].plain);
    assert p + ToyTag() == q + ToyTag();
    assert p == (p + ToyTag())[..|p|] == (q + ToyTag())[..|q|] == q;
  }

  // ---------- reading ----------

  /** How a read ends: with the end-of-stream signal, or with an error that is not one. */
  datatype Ending = Eof | Damaged

  datatype Step = Opened(plain: seq<Byte>, rest: seq<Byte>) | Stop(ending: Ending)

  /** Reads one frame off the front of `s`, which is all that the source still holds.
      A short read is an end of stream when it got no byte at all, and an error otherwise; that
      holds for each of the three reads, because the reader recognises a wrapped end of stream. */
  function NextFrame(aead: Aead, idx: nat, s: seq<Byte>): (r: Step)
    ensures r.Opened? ==> |r.rest| + NONCE_SIZE + LEN_PREFIX_SIZE + OVERHEAD <= |s|
  {
    if |s| < NONCE_SIZE then Stop(ShortRead(|s|))
    else if |s| < NONCE_SIZE + LEN_PREFIX_SIZE then Stop(ShortRead(|s| - NONCE_SIZE))
    else
      var ctLen := FromBigEndian(s[NONCE_SIZE..NONCE_SIZE + LEN_PREFIX_SIZE]);
      var body := s[NONCE_SIZE + LEN_PREFIX_SIZE..];
      if ctLen < OVERHEAD || ctLen > MAX_FRAME_SIZE then Stop(Damaged)
      else if |body| < ctLen then Stop(ShortRead(|body|))
      else
        match aead.open(s[..NONCE_SIZE], Aad(idx), body[..ctLen])
        case None => Stop(Damaged)
        case Some(p) => Opened(p, body[ctLen..])
  }

  function ShortRead(got: nat): Ending {
    if got == 0 then Eof else Damaged
  }

  datatype Decoded = Decoded(text: seq<Byte>, ending: Ending) {
    function After(p: seq<Byte>): Decoded {
      this.(text := p + text)
    }
  }

  /** All that a reader gets from `s` up to its first end-of-stream signal or error. */
  function Decode(aead: Aead, idx: nat, s: seq<Byte>): Decoded
    decreases |s|
  {
    match NextFrame(aead, idx, s)
    case Stop(e) => Decoded([], e)
    case Opened(p, rest) =>
      Decode(aead, idx + 1, rest).After(p)
  }

  // ---------- writing ----------

  lemma {:induction false} EncodeConcat(aead: Aead, idx: nat, a: seq<Block>, b: seq<Block>)
    ensures Encode(aead, idx, a + b) == Encode(aead, idx, a) + Encode(aead, idx + |a|, b)
    decreases |a|
  {
    if a == [] {
      assert a + b == b;
    } else {
      assert (a + b)[1..] == a[1..] + b;
      EncodeConcat(aead, idx + 1, a[1..], b);
    }
  }

  lemma {:induction false} EncodeSnoc(aead: Aead, idx: nat, blocks: seq<Block>, b: Block)
    ensures Encode(aead, idx, blocks + [b]) == Encode(aead, idx, blocks) + Frame(aead, idx + |blocks|, b)
    ensures Text(blocks + [b]) == Text(blocks) + b.plain
  {
    EncodeConcat(aead, idx, blocks, [b]);
    assert Encode(aead, idx + |blocks|, [b]) == Frame(aead, idx + |blocks|, b);
    assert Plains(blocks + [b]) == Plains(blocks) + [b.plain];
    FlattenSnoc(Plains(blocks), b.plain);
  }

  /** Every frame costs 32 bytes on top of its plaintext: 12 + 4 for the header, 16 for the tag. */
  lemma {:induction false} EncodeSize(aead: Aead, idx: nat, blocks: seq<Block>)
    requires aead.Tagged() && ValidBlocks(blocks)
    ensures |Encode(aead, idx, blocks)| == |Text(blocks)| + 32 * |blocks|
    decreases |blocks|
  {
    if blocks != [] {
      assert ValidBlock(blocks[0]);
      assert Plains(blocks)[1..] == Plains(blocks[1..]);
      EncodeSize(aead, idx + 1, blocks[1..]);
    }
  }

  // ---------- honest streams ----------

  /** The length field of an honest frame is exact and within the reader's limits. */
  lemma {:induction false} LengthField(aead: Aead, idx: nat, b: Block)
    requires aead.Tagged() && ValidBlock(b)
    ensures var f := Frame(aead, idx, b);
      && |f| == NONCE_SIZE + LEN_PREFIX_SIZE + |b.plain| + OVERHEAD
      && f[..NONCE_SIZE] == b.nonce
      && f[NONCE_SIZE + LEN_PREFIX_SIZE..] == aead.seal(b.nonce, Aad(idx), b.plain)
      && OVERHEAD <= FromBigEndian(f[NONCE_SIZE..NONCE_SIZE + LEN_PREFIX_SIZE]) <= MAX_FRAME_SIZE
      && FromBigEndian(f[NONCE_SIZE..NONCE_SIZE + LEN_PREFIX_SIZE]) == |b.plain| + OVERHEAD
  {
    var ct := aead.seal(b.nonce, Aad(idx), b.plain);
    PowerValues();
    BigEndianRoundTrip(LEN_PREFIX_SIZE, |ct|);
    var f := Frame(aead, idx, b);
    assert f[NONCE_SIZE..NONCE_SIZE + LEN_PREFIX_SIZE] == BigEndian(LEN_PREFIX_SIZE, |ct|);
  }

  lemma {:induction false} NextHonestFrame(aead: Aead, idx: nat, b: Block, t: seq<Byte>)
    requires aead.Tagged() && Opens(aead, idx, b) && ValidBlock(b)
    ensures NextFrame(aead, idx, Frame(aead, idx, b) + t) == Opened(b.plain, t)
  {
    LengthField(aead, idx, b);
    var f := Frame(aead, idx, b);
    var s := f + t;
    var ct := aead.seal(b.nonce, Aad(idx), b.plain);
    assert s[..NONCE_SIZE] == b.nonce;
    assert s[NONCE_SIZE..NONCE_SIZE + LEN_PREFIX_SIZE] == f[NONCE_SIZE..NONCE_SIZE + LEN_PREFIX_SIZE];
    assert s[NONCE_SIZE + LEN_PREFIX_SIZE..] == ct + t;
    assert (ct + t)[..|ct|] == ct && (ct + t)[|ct|..] == t;
  }

  /** A frame cut strictly inside itself gives no plaintext, and signals the end of the stream
      exactly when the cut falls before the nonce, after it, or after the length field. */
  lemma {:induction false} NextTornFrame(aead: Aead, idx: nat, b: Block, cut: nat)
    requires aead.Tagged() && ValidBlock(b)
    requires cut < |Frame(aead, idx, b)|
    ensures NextFrame(aead, idx, Frame(aead, idx, b)[..cut])
         == Stop(if cut in {0, NONCE_SIZE, NONCE_SIZE + LEN_PREFIX_SIZE} then Eof else Damaged)
  {
    LengthField(aead, idx, b);
    var f := Frame(aead, idx, b);
    if cut >= NONCE_SIZE + LEN_PREFIX_SIZE {
      assert f[..cut][NONCE_SIZE..NONCE_SIZE + LEN_PREFIX_SIZE] == f[NONCE_SIZE..NONCE_SIZE + LEN_PREFIX_SIZE];
    }
  }

  /** Where a cut falls: after `whole` complete frames and `into` bytes into the next one. */
  ghost predicate CutAt(aead: Aead, blocks: seq<Block>, cut: nat, whole: nat, into: nat) {
    && whole <= |blocks|
    && cut == |Encode(aead, 0, blocks[..whole])| + into
    && (if whole == |blocks| then into == 0 else into < |Frame(aead, whole, blocks[whole])|)
  }

  /** Cut an honest stream at any byte. The reader delivers exactly the complete blocks before the
      cut. It then reports a clean end exactly when the cut lies 0, 12 or 16 bytes into a frame. */
  lemma {:induction false} DecodeCut(aead: Aead, blocks: seq<Block>, cut: nat, whole: nat, into: nat)
    requires aead.Tagged() && aead.OpensAll(Log(aead, 0, blocks)) && ValidBlocks(blocks)
    requires CutAt(aead, blocks, cut, whole, into)
    ensures cut <= |Encode(aead, 0, blocks)|
    ensures Decode(aead, 0, Encode(aead, 0, blocks)[..cut])
         == Decoded(Text(blocks[..whole]), if into in {0, 12, 16} then Eof else Damaged)
  {
    var tail := if whole == |blocks| then [] else Frame(aead, whole, blocks[whole])[..into];
    CutText(aead, blocks, cut, whole, into, tail);
    LogOpens(aead, blocks);
    FirstOpen(aead, blocks, whole);
    TornTail(aead, blocks, whole, into, tail);
    HonestThenTorn(aead, blocks[..whole], tail, if into in {0, 12, 16} then Eof else Damaged);
  }

  lemma {:induction false} HonestThenTorn(aead: Aead, blocks: seq<Block>, tail: seq<Byte>, ending: Ending)
    requires aead.Tagged() && OpensEach(aead, 0, blocks) && ValidBlocks(blocks)
    requires Decode(aead, |blocks|, tail) == Decoded([], ending)
    ensures Decode(aead, 0, Encode(aead, 0, blocks) + tail) == Decoded(Text(blocks), ending)
  {
    DecodeHonestPrefix(aead, 0, blocks, tail);
    assert Text(blocks) + [] == Text(blocks);
  }

  lemma {:induction false} FirstOpen(aead: Aead, blocks: seq<Block>, n: nat)
    requires n <= |blocks| && OpensEach(aead, 0, blocks) && ValidBlocks(blocks)
    ensures OpensEach(aead, 0, blocks[..n]) && ValidBlocks(blocks[..n])
  {
    forall k | 0 <= k < n
      ensures Opens(aead, 0 + k, blocks[..n][k])
    {
      assert Opens(aead, 0 + k, blocks[k]);
    }
  }

  /** What is left of the frame that was cut decodes to nothing. */
  lemma {:induction false} TornTail(aead: Aead, blocks: seq<Block>, whole: nat, into: nat, tail: seq<Byte>)
    requires aead.Tagged() && ValidBlocks(blocks) && whole <= |blocks|
    requires if whole == |blocks| then into == 0 && tail == []
             else into < |Frame(aead, whole, blocks[whole])| && tail == Frame(aead, whole, blocks[whole])[..into]
    ensures Decode(aead, whole, tail) == Decoded([], if into in {0, 12, 16} then Eof else Damaged)
  {
    if whole < |blocks| {
      NextTornFrame(aead, whole, blocks[whole], into);
    }
  }

  lemma {:induction false} CutText(aead: Aead, blocks: seq<Block>, cut: nat, whole: nat, into: nat, tail: seq<Byte>)
    requires CutAt(aead, blocks, cut, whole, into)
    requires tail == if whole == |blocks| then [] else Frame(aead, whole, blocks[whole])[..into]
    ensures cut <= |Encode(aead, 0, blocks)|
    ensures Encode(aead, 0, blocks)[..cut] == Encode(aead, 0, blocks[..whole]) + tail
  {
    EncodeSplit(aead, blocks, whole);
    CutFirst(aead, whole, blocks[whole..], into, tail);
    TakeBeyond(Encode(aead, 0, blocks[..whole]), Encode(aead, whole, blocks[whole..]), into);
  }

  lemma {:induction false} EncodeSplit(aead: Aead, blocks: seq<Block>, k: nat)
    requires k <= |blocks|
    ensures Encode(aead, 0, blocks) == Encode(aead, 0, blocks[..k]) + Encode(aead, k, blocks[k..])
  {
    assert blocks == blocks[..k] + blocks[k..];
    EncodeConcat(aead, 0, blocks[..k], blocks[k..]);
  }

  /** A cut inside the first frame, or at the end of no frames. */
  lemma {:induction false} CutFirst(aead: Aead, idx: nat, blocks: seq<Block>, into: nat, tail: seq<Byte>)
    requires if blocks == [] then into == 0 && tail == []
             else into <= |Frame(aead, idx, blocks[0])| && tail == Frame(aead, idx, blocks[0])[..into]
    ensures into <= |Encode(aead, idx, blocks)| && tail == Encode(aead, idx, blocks)[..into]
  {
    if blocks != [] {
      TakeWithin(Frame(aead, idx, blocks[0]), Encode(aead, idx + 1, blocks[1..]), into);
    }
  }

  lemma {:induction false} TakeWithin<T>(a: seq<T>, b: seq<T>, n: nat)
    requires n <= |a|
    ensures (a + b)[..n] == a[..n]
  {
  }

  lemma {:induction false} TakeBeyond<T>(a: seq<T>, b: seq<T>, n: nat)
    requires n <= |b|
    ensures (a + b)[..|a| + n] == a + b[..n]
  {
  }

  /** Every cut position has exactly that form, so `DecodeCut` covers all of them. */
  lemma {:induction false} CutExists(aead: Aead, blocks: seq<Block>, cut: nat)
    returns (whole: nat, into: nat)
    requires cut <= |Encode(aead, 0, blocks)|
    ensures CutAt(aead, blocks, cut, whole, into)
  {
    whole := 0;
    assert Encode(aead, 0, blocks[..0]) == [];
    while whole < |blocks| && cut >= |Encode(aead, 0, blocks[..whole + 1])|
      invariant whole <= |blocks| && |Encode(aead, 0, blocks[..whole])| <= cut
    {
      whole := whole + 1;
    }
    into := cut - |Encode(aead, 0, blocks[..whole])|;
    if whole == |blocks| {
      assert blocks[..whole] == blocks;
    } else {
      assert blocks[..whole + 1] == blocks[..whole] + [blocks[whole]];
      EncodeSnoc(aead, 0, blocks[..whole], blocks[whole]);
    }
  }

  lemma {:induction false} DecodeHonestPrefix(aead: Aead, idx: nat, blocks: seq<Block>, tail: seq<Byte>)
    requires aead.Tagged() && OpensEach(aead, idx, blocks) && ValidBlocks(blocks)
    ensures Decode(aead, idx, Encode(aead, idx, blocks) + tail)
         == Decode(aead, idx + |blocks|, tail).After(Text(blocks))
    decreases |blocks|
  {
    if blocks == [] {
      AfterNothing(Decode(aead, idx, tail));
      assert Encode(aead, idx, blocks) + tail == tail;
    } else {
      RestOpens(aead, idx, blocks);
      DecodeHonestPrefix(aead, idx + 1, blocks[1..], tail);
      HonestStep(aead, idx, blocks, tail, Decode(aead, idx + |blocks|, tail));
    }
  }

  /** One block in front. */
  lemma {:induction false} HonestStep(aead: Aead, idx: nat, blocks: seq<Block>, tail: seq<Byte>, d: Decoded)
    requires aead.Tagged() && blocks != [] && Opens(aead, idx, blocks[0]) && ValidBlock(blocks[0])
    requires Decode(aead, idx + 1, Encode(aead, idx + 1, blocks[1..]) + tail) == d.After(Text(blocks[1..]))
    ensures Decode(aead, idx, Encode(aead, idx, blocks) + tail) == d.After(Text(blocks))
  {
    DecodeFrame(aead, idx, blocks[0], Encode(aead, idx + 1, blocks[1..]) + tail, Text(blocks[1..]), d);
    TextCons(blocks);
    Regroup(Frame(aead, idx, blocks[0]), Encode(aead, idx + 1, blocks[1..]), tail);
  }

  lemma {:induction false} RestOpens(aead: Aead, idx: nat, blocks: seq<Block>)
    requires blocks != [] && OpensEach(aead, idx, blocks)
    ensures Opens(aead, idx, blocks[0]) && OpensEach(aead, idx + 1, blocks[1..])
  {
    assert Opens(aead, idx + 0, blocks[0]);
    forall k | 0 <= k < |blocks[1..]|
      ensures Opens(aead, idx + 1 + k, blocks[1..][k])
    {
      assert Opens(aead, idx + (k + 1), blocks[k + 1]);
    }
  }

  /** Reading an honest stream gives back its plaintext and then the end of the stream. */
  lemma {:induction false} DecodeEncode(aead: Aead, idx: nat, blocks: seq<Block>)
    requires aead.Tagged() && OpensEach(aead, idx, blocks) && ValidBlocks(blocks)
    ensures Decode(aead, idx, Encode(aead, idx, blocks)) == Decoded(Text(blocks), Eof)
  {
    DecodeHonestPrefix(aead, idx, blocks, []);
    assert Encode(aead, idx, blocks) + [] == Encode(aead, idx, blocks);
    assert Text(blocks) + [] == Text(blocks);
  }

  lemma {:induction false} AfterNothing(d: Decoded)
    ensures d.After([]) == d
  {
    assert [] + d.text == d.text;
  }

  lemma {:induction false} Regroup<T>(a: seq<T>, b: seq<T>, c: seq<T>)
    ensures (a + b) + c == a + (b + c)
  {
  }

  lemma {:induction false} TextCons(blocks: seq<Block>)
    requires blocks != []
    ensures Text(blocks) == blocks[0].plain + Text(blocks[1..])
  {
    assert Plains(blocks)[1..] == Plains(blocks[1..]);
  }

  lemma {:induction false} DecodeFrame(
    aead: Aead, idx: nat, b: Block, more: seq<Byte>, t: seq<Byte>, d: Decoded)
    requires aead.Tagged() && Opens(aead, idx, b) && ValidBlock(b)
    requires Decode(aead, idx + 1, more) == d.After(t)
    ensures Decode(aead, idx, Frame(aead, idx, b) + more) == d.After(b.plain + t)
  {
    NextHonestFrame(aead, idx, b, more);
    Regroup(b.plain, t, d.text);
  }

  // ---------- arbitrary streams ----------

  /** On any input at all: the end-of-stream signal means that nothing is left, or only a nonce, or
      only a nonce and an acceptable length. It does not mean that the stream was complete. */
  lemma {:induction false} EofExactly(aead: Aead, idx: nat, s: seq<Byte>)
    ensures NextFrame(aead, idx, s) == Stop(Eof) <==>
      || |s| == 0
      || |s| == NONCE_SIZE
      || (|s| == NONCE_SIZE + LEN_PREFIX_SIZE
          && OVERHEAD <= FromBigEndian(s[NONCE_SIZE..]) <= MAX_FRAME_SIZE)
  {
    if |s| == NONCE_SIZE + LEN_PREFIX_SIZE {
      assert s[NONCE_SIZE..] == s[NONCE_SIZE..NONCE_SIZE + LEN_PREFIX_SIZE];
    }
  }

  /** One block written, its ciphertext lost: the reader reports a clean end of an empty dump. */
  lemma {:induction false} TruncationCanLookClean(aead: Aead, b: Block)
    requires aead.Tagged() && ValidBlock(b)
    ensures var torn := Encode(aead, 0, [b])[..16];
      torn < Encode(aead, 0, [b]) && Decode(aead, 0, torn) == Decoded([], Eof)
  {
    LengthField(aead, 0, b);
    EncodeSnoc(aead, 0, [], b);
    assert [] + [b] == [b];
    assert Encode(aead, 0, [b]) == Frame(aead, 0, b);
    NextTornFrame(aead, 0, b, 16);
  }

  /** A ciphertext that opens at position `idx` is the block that was written at position `idx`:
      the index in the additional data admits no other. */
  lemma {:induction false} OpenedIsLogged(
    aead: Aead, blocks: seq<Block>, idx: nat, nonce: seq<Byte>, ct: seq<Byte>)
    requires aead.OpensOnly(Log(aead, 0, blocks))
    requires |blocks| < Pow256(AAD_SIZE) && idx <= |blocks|
    requires aead.open(nonce, Aad(idx), ct).Some?
    ensures idx < |blocks| && aead.open(nonce, Aad(idx), ct) == Some(blocks[idx].plain)
  {
    var log := Log(aead, 0, blocks);
    var p := aead.open(nonce, Aad(idx), ct).value;
    var k :| 0 <= k < |log| && log[k] == Sealed(nonce, Aad(idx), ct, p);
    assert log[k] == SealOf(aead, 0 + k, blocks[k]);
    BigEndianInjective(AAD_SIZE, idx, k);
  }

  /** Feed the reader any bytes: frames reordered, repeated, dropped, altered, or noise. What it
      delivers before its first end-of-stream signal or error is the first blocks of the export. */
  lemma {:induction false} DecodeAuthentic(aead: Aead, blocks: seq<Block>, idx: nat, s: seq<Byte>)
    returns (k: nat)
    requires aead.OpensOnly(Log(aead, 0, blocks))
    requires |blocks| < Pow256(AAD_SIZE) && idx <= |blocks|
    ensures idx <= k <= |blocks| && Decode(aead, idx, s).text == Text(blocks[idx..k])
    decreases |s|
  {
    match NextFrame(aead, idx, s)
    case Stop(e) =>
      k := idx;
      assert Plains(blocks[idx..idx]) == [];
    case Opened(p, rest) =>
      var body := s[NONCE_SIZE + LEN_PREFIX_SIZE..];
      var ctLen := FromBigEndian(s[NONCE_SIZE..NONCE_SIZE + LEN_PREFIX_SIZE]);
      OpenedIsLogged(aead, blocks, idx, s[..NONCE_SIZE], body[..ctLen]);
      k := DecodeAuthentic(aead, blocks, idx + 1, rest);
      TextCons(blocks[idx..k]);
      assert blocks[idx..k][1..] == blocks[idx + 1..k];
  }
}
