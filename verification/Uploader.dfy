/** The S3 multipart uploader that the encrypter writes into. */
module Uploader {
  import opened Wrappers
  import opened Bytes

  const PART_SIZE := 0x80_0000

  /** What the client remembers of an uploaded part. */
  datatype Part = Part(number: int, etag: string)

  /** A part the store has accepted. */
  datatype Put = Put(part: Part, body: seq<Byte>)

  /** A request to assemble the object from `parts`, with its outcome. */
  datatype Completion = Completion(parts: seq<Part>, ok: bool)

  /** One multipart upload as the object store sees it: the parts it accepted, the completion
      requests and the abort requests. A store that is not reliable may fail any request. */
  class MultipartApi {
    const reliable: bool
    var puts: seq<Put>
    var completions: seq<Completion>
    var aborts: nat

    constructor (reliable: bool)
      ensures puts == [] && completions == [] && aborts == 0 && this.reliable == reliable
    {
      this.reliable := reliable;
      puts, completions, aborts := [], [], 0;
    }

    method UploadPart(number: int, body: seq<Byte>) returns (etag: Option<string>)
      modifies this`puts
      ensures puts == old(puts) + if etag.Some? then [Put(Part(number, etag.value), body)] else []
      ensures reliable ==> etag.Some?
    {
      var tag: string := *;
      var fails: bool := *;
      etag := if fails && !reliable then None else Some(tag);
      if etag.Some? {
        puts := puts + [Put(Part(number, etag.value), body)];
      }
    }

    method CompleteMultipart(parts: seq<Part>) returns (ok: bool)
      modifies this`completions
      ensures completions == old(completions) + [Completion(parts, ok)]
      ensures reliable ==> ok
    {
      ok := *;
      ok := ok || reliable;
      completions := completions + [Completion(parts, ok)];
    }

    method AbortMultipart() returns (ok: bool)
      modifies this`aborts
      ensures aborts == old(aborts) + 1
    {
      ok := *;
      aborts := aborts + 1;
    }
  }

  /** What the store assembles for a completion request: the accepted bodies under the listed
      numbers and tags, in list order. */
  function Object(puts: seq<Put>, parts: seq<Part>): seq<Byte> {
    if parts == [] then [] else BodyOf(puts, parts[0]) + Object(puts, parts[1..])
  }

  function BodyOf(puts: seq<Put>, p: Part): seq<Byte> {
    if puts == [] then [] else if puts[0].part == p then puts[0].body else BodyOf(puts[1..], p)
  }

  /** The store accepted exactly `bodies`, under `parts`, which are numbered from 1. */
  ghost predicate Staged(puts: seq<Put>, parts: seq<Part>, bodies: seq<seq<Byte>>) {
    && |puts| == |parts| == |bodies|
    && forall k :: 0 <= k < |puts| ==> puts[k] == Put(parts[k], bodies[k]) && parts[k].number == k + 1
  }

  lemma {:induction false} BodyOfPut(puts: seq<Put>, k: nat)
    requires k < |puts|
    requires forall i :: 0 <= i < k ==> puts[i].part != puts[k].part
    ensures BodyOf(puts, puts[k].part) == puts[k].body
  {
    if k > 0 {
      assert puts[0].part != puts[k].part;
      BodyOfPut(puts[1..], k - 1);
    }
  }

  /** Listing every accepted part, in order, assembles all the bodies, in order. */
  lemma {:induction false} ObjectOfAll(puts: seq<Put>, parts: seq<Part>, bodies: seq<seq<Byte>>, from: nat)
    requires Staged(puts, parts, bodies) && from <= |parts|
    ensures Object(puts, parts[from..]) == Flatten(bodies[from..])
    decreases |parts| - from
  {
    if from < |parts| {
      forall i | 0 <= i < from ensures puts[i].part != puts[from].part {
        assert parts[i].number != parts[from].number;
      }
      BodyOfPut(puts, from);
      ObjectOfAll(puts, parts, bodies, from + 1);
      assert parts[from..][1..] == parts[from + 1..] && bodies[from..][1..] == bodies[from + 1..];
    }
  }

  /** One more part. */
  lemma {:induction false} PartStaged(
    puts: seq<Put>, parts: seq<Part>, bodies: seq<seq<Byte>>, part: Part, body: seq<Byte>, accepted: seq<Byte>)
    requires Staged(puts, parts, bodies) && part.number == |parts| + 1
    requires Flatten(bodies) + body == accepted
    ensures Staged(puts + [Put(part, body)], parts + [part], bodies + [body])
    ensures Flatten(bodies + [body]) + [] == Flatten(bodies + [body]) == accepted
    ensures |Flatten(bodies + [body])| == |Flatten(bodies)| + |body|
  {
    FlattenSnoc(bodies, body);
  }

  // ---------- the uploader ----------

  datatype UploadError = WriteOnClosed | PartFailed(number: int) | CompleteFailed

  class ChunkUploader {
    const api: MultipartApi
    var buf: seq<Byte>
    var partNumber: int
    var parts: seq<Part>
    var uploaded: nat
    var reported: nat  // last value handed to the progress callback
    var closed: bool
    var aborted: bool
    var completeErr: Option<UploadError>
    ghost var accepted: seq<Byte>  // all bytes taken from callers of Write
    ghost var bodies: seq<seq<Byte>>  // what was uploaded as each of `parts`

    /** The bytes accepted so far are the uploaded bodies followed by the buffer; parts are numbered
        1, 2, ...; every part uploaded before Close is full; the counters and the store agree. */
    ghost predicate Consistent()
      reads this, api
    {
      && Staged(api.puts, parts, bodies)
      && Flatten(bodies) + buf == accepted
      && uploaded == reported == |Flatten(bodies)|
      && api.aborts == (if aborted then 1 else 0)
      && |buf| <= PART_SIZE
      && (!closed ==> api.completions == [])
      && (!closed ==> forall k :: 0 <= k < |bodies| ==> |bodies[k]| == PART_SIZE)
    }

    /** What holds between calls: a full part waits in the buffer only after its upload failed. */
    ghost predicate Valid()
      reads this, api
    {
      && Consistent()
      && (|buf| == PART_SIZE ==> completeErr.Some?)
      && (!closed && completeErr.None? ==> partNumber == |parts|)
      && (api.reliable ==> completeErr.None?)
    }

    constructor (api: MultipartApi)
      requires api.puts == [] && api.completions == [] && api.aborts == 0
      ensures Valid() && this.api == api && fresh(this)
      ensures accepted == [] && !closed && !aborted && completeErr.None?
    {
      this.api := api;
      buf, partNumber, parts, uploaded, reported := [], 0, [], 0, 0;
      closed, aborted, completeErr := false, false, None;
      accepted, bodies := [], [];
    }

    /** Uploads the buffer as the next part. On failure the buffer stays. */
    method UploadCurrentPart() returns (err: Option<UploadError>)
      requires Consistent() && partNumber == |parts|
      requires closed || |buf| == PART_SIZE
      modifies this, api`puts
      ensures Consistent()
      ensures closed == old(closed) && aborted == old(aborted) && completeErr == old(completeErr)
      ensures accepted == old(accepted) && old(api.puts) <= api.puts
      ensures err.None? ==> buf == [] && bodies == old(bodies) + [old(buf)] && partNumber == |parts|
      ensures err.Some? ==> buf == old(buf) && bodies == old(bodies) && parts == old(parts)
      ensures api.reliable ==> err.None?
    {
      partNumber := partNumber + 1;
      var etag := api.UploadPart(partNumber, buf);
      if etag.None? {
        return Some(PartFailed(partNumber));
      }
      PartStaged(old(api.puts), parts, bodies, Part(partNumber, etag.value), buf, accepted);
      parts := parts + [Part(partNumber, etag.value)];
      uploaded := uploaded + |buf|;
      bodies := bodies + [buf];
      buf := [];
      reported := uploaded;
      err := None;
    }

    /** S3 needs at least one part: a stream without a byte becomes one empty part. */
    method UploadEmptyFirstPart() returns (err: Option<UploadError>)
      requires Consistent() && closed && parts == [] && buf == [] && partNumber == 0
      modifies this, api`puts
      ensures Consistent()
      ensures closed && aborted == old(aborted) && completeErr == old(completeErr)
      ensures accepted == old(accepted) && buf == []
      ensures bodies == if err.None? then [[]] else []
      ensures api.reliable ==> err.None?
    {
      partNumber := partNumber + 1;
      var etag := api.UploadPart(partNumber, []);
      if etag.None? {
        return Some(PartFailed(partNumber));
      }
      PartStaged(old(api.puts), parts, bodies, Part(partNumber, etag.value), [], accepted);
      parts := parts + [Part(partNumber, etag.value)];
      bodies := bodies + [[]];
      err := None;
    }

    /** Issues the abort request, once in the life of the uploader. */
    method Abort() returns (ok: bool)
      requires Valid()
      modifies this`aborted, api`aborts
      ensures Valid() && aborted
      ensures api.aborts == 1 && api.puts == old(api.puts)
      ensures old(aborted) ==> ok
    {
      if aborted {
        return true;
      }
      aborted := true;
      ok := api.AbortMultipart();
    }

    /** Takes `p` into the current part, uploading each part that fills up. */
    method Write(p: seq<Byte>) returns (n: nat, err: Option<UploadError>)
      requires Valid()
      modifies this, api`puts
      ensures Valid()
      ensures closed == old(closed) && aborted == old(aborted)
      ensures n <= |p| && accepted == old(accepted) + p[..n]
      ensures err.None? ==> n == |p|
      ensures old(closed) ==> err == Some(WriteOnClosed)
      ensures !old(closed) ==> err == completeErr
      ensures old(closed) || old(completeErr).Some? ==>
        n == 0 && completeErr == old(completeErr) && api.puts == old(api.puts)
      ensures old(api.puts) <= api.puts
      ensures api.reliable && !closed ==> err.None?
    {
      if closed {
        return 0, Some(WriteOnClosed);
      }
      if completeErr.Some? {
        return 0, completeErr;
      }
      n, err := 0, None;
      while n < |p|
        invariant n <= |p|
        invariant Valid() && closed == old(closed) && aborted == old(aborted)
        invariant err.None? && completeErr.None?
        invariant accepted == old(accepted) + p[..n]
        invariant old(api.puts) <= api.puts
      {
        var room := PART_SIZE - |buf|;
        var take := if |p| - n > room then room else |p| - n;
        TakeMore(Flatten(bodies), buf, old(accepted), p, n, take);
        buf := buf + p[n..n + take];
        accepted := old(accepted) + p[..n + take];
        n := n + take;
        if |buf| >= PART_SIZE {
          err := UploadCurrentPart();
          if err.Some? {
            completeErr := err;
            return n, err;
          }
        }
      }
    }

    /** Uploads what is left, or the one empty part. */
    method UploadTail() returns (err: Option<UploadError>)
      requires Valid() && closed && partNumber == |parts| && completeErr.None?
      requires forall k :: 0 <= k < |bodies| ==> |bodies[k]| == PART_SIZE
      modifies this, api`puts
      ensures Valid()
      ensures closed && aborted == old(aborted) && completeErr.None? && accepted == old(accepted)
      ensures err.None? ==>
        && parts != [] && buf == []
        && bodies == (if accepted == [] then [[]] else Chunks(PART_SIZE, accepted))
        && Object(api.puts, parts) == accepted
      ensures api.reliable ==> err.None?
    {
      if |buf| > 0 {
        err := UploadCurrentPart();
        if err.Some? {
          return;
        }
      }
      if |parts| == 0 {
        err := UploadEmptyFirstPart();
        if err.Some? {
          return;
        }
      }
      BodiesAreChunks(bodies, accepted);
      ObjectOfAll(api.puts, parts, bodies, 0);
      err := None;
    }

    /** Uploads the tail and completes the upload; on any failure aborts it. */
    method Close() returns (err: Option<UploadError>)
      requires Valid()
      modifies this, api
      ensures Valid() && closed
      ensures accepted == old(accepted)
      ensures old(closed) || old(aborted) ==>
        && err.None? && aborted == old(aborted)
        && api.puts == old(api.puts) && api.completions == old(api.completions)
      ensures !old(closed) && !old(aborted) && err.None? ==>
        && !aborted
        && parts != [] && buf == []
        && bodies == (if accepted == [] then [[]] else Chunks(PART_SIZE, accepted))
        && uploaded == |accepted|
        && api.completions == [Completion(parts, true)]
        && Object(api.puts, parts) == accepted
      ensures !old(closed) && !old(aborted) && err.Some? ==>
        && aborted
        && (api.completions == [] || api.completions == [Completion(parts, false)])
      // completion is asked for only with a part and all the bytes, however it is answered
      ensures !old(closed) && !old(aborted) && api.completions != [] ==>
        && parts != [] && buf == []
        && Object(api.puts, parts) == accepted
      ensures api.reliable ==> err.None?
    {
      if closed {
        return None;
      }
      closed := true;
      if aborted {
        return None;
      }
      if completeErr.Some? {
        var _ := Abort();
        return completeErr;
      }
      err := UploadTail();
      if err.Some? {
        var _ := Abort();
        return;
      }
      // the parts are in number order already, so sorting them changes nothing
      var ok := api.CompleteMultipart(parts);
      if !ok {
        var _ := Abort();
        return Some(CompleteFailed);
      }
      err := None;
    }
  }

  lemma {:induction false} TakeMore<T>(sent: seq<T>, buf: seq<T>, before: seq<T>, p: seq<T>, n: nat, take: nat)
    requires n + take <= |p|
    requires sent + buf == before + p[..n]
    ensures sent + (buf + p[n..n + take]) == before + p[..n + take]
  {
    assert p[..n] + p[n..n + take] == p[..n + take];
    assert sent + (buf + p[n..n + take]) == (sent + buf) + p[n..n + take];
    assert before + (p[..n] + p[n..n + take]) == (before + p[..n]) + p[n..n + take];
  }

  /** Full parts with a non-empty tail, or a lone empty part: nothing else adds up to `text`. */
  lemma {:induction false} BodiesAreChunks(bodies: seq<seq<Byte>>, text: seq<Byte>)
    requires Flatten(bodies) == text && bodies != []
    requires forall k :: 0 <= k < |bodies| - 1 ==> |bodies[k]| == PART_SIZE
    requires |bodies[|bodies| - 1]| <= PART_SIZE
    requires bodies[|bodies| - 1] == [] ==> |bodies| == 1
    ensures bodies == if text == [] then [[]] else Chunks(PART_SIZE, text)
  {
    if bodies[|bodies| - 1] != [] {
      ChunksUnique(PART_SIZE, bodies);
    }
  }
}
