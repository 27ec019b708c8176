/** The credential vault: a map kept in one encrypted file that is replaced as a whole. */
module Vault {
  import opened Wrappers
  import opened Bytes
  import opened Frames

  const MIN_BLOB_SIZE := NONCE_SIZE + 1
  const ZERO_TIME := 0

  datatype CredEntry = CredEntry(secret: string, connectedAt: int)

  type Entries = map<string, CredEntry>

  /** The JSON encoding. */
  datatype Codec = Codec(marshal: Entries -> Option<seq<Byte>>, unmarshal: seq<Byte> -> Option<Entries>)
  {
    /** What can be written is read back, and is not an empty text. */
    ghost predicate Faithful() {
      forall m :: marshal(m).Some? ==> marshal(m).value != [] && unmarshal(marshal(m).value) == Some(m)
    }
  }

  /** The content of the vault file, if there is a file. */
  type Blob = Option<seq<Byte>>

  /** The entries that a vault file stands for; none if it is corrupt. */
  function DecodeBlob(aead: Aead, codec: Codec, b: Blob): Option<Entries> {
    if b.None? || b.value == [] then Some(map[])
    else if |b.value| < MIN_BLOB_SIZE then None
    else
      var plain := aead.open(b.value[..NONCE_SIZE], [], b.value[NONCE_SIZE..]);
      if plain.None? then None
      else if plain.value == [] then Some(map[])
      else codec.unmarshal(plain.value)
  }

  /** A file that holds something is corrupt if it is shorter than a nonce and a byte, does not open, or
      opens to a text that is no map; only no file, an empty file or an empty text stand for no entries. */
  lemma {:induction false} BlobForms(aead: Aead, codec: Codec, data: seq<Byte>)
    ensures DecodeBlob(aead, codec, None) == DecodeBlob(aead, codec, Some([])) == Some(map[])
    ensures 0 < |data| < 13 ==> DecodeBlob(aead, codec, Some(data)) == None
    ensures |data| >= 13 ==>
      var plain := aead.open(data[..12], [], data[12..]);
      && (plain.None? ==> DecodeBlob(aead, codec, Some(data)) == None)
      && (plain == Some([]) ==> DecodeBlob(aead, codec, Some(data)) == Some(map[]))
      && (plain.Some? && plain.value != [] ==> DecodeBlob(aead, codec, Some(data)) == codec.unmarshal(plain.value))
  {
  }

  /** Functional correctness for seals without additional data. The vault's theorems need no authenticity. */
  ghost predicate OpensSeals(aead: Aead) {
    aead.Tagged() && forall n, p :: aead.open(n, [], aead.seal(n, [], p)) == Some(p)
  }

  function SealedBlob(aead: Aead, nonce: seq<Byte>, plain: seq<Byte>): seq<Byte> {
    nonce + aead.seal(nonce, [], plain)
  }

  /** Whatever nonce was drawn. */
  lemma {:induction false} SealedReadsBack(aead: Aead, codec: Codec, nonce: seq<Byte>, m: Entries)
    requires OpensSeals(aead) && codec.Faithful() && |nonce| == NONCE_SIZE && codec.marshal(m).Some?
    ensures DecodeBlob(aead, codec, Some(SealedBlob(aead, nonce, codec.marshal(m).value))) == Some(m)
  {
    var b := SealedBlob(aead, nonce, codec.marshal(m).value);
    assert b[..NONCE_SIZE] == nonce && b[NONCE_SIZE..] == aead.seal(nonce, [], codec.marshal(m).value);
  }

  // ---------- what the calls mean ----------

  datatype Call =
    | GetCall(id: string)
    | PutCall(id: string, entry: CredEntry, now: int)
    | DeleteCall(id: string)
    | ListCall

  datatype Answer = Found(entry: CredEntry) | Absent | Done | Ids(ids: set<string>) | Error

  function WithTime(e: CredEntry, now: int): CredEntry {
    if e.connectedAt == ZERO_TIME then e.(connectedAt := now) else e
  }

  /** The calls on a plain map. */
  function OnMap(m: Entries, call: Call): (Entries, Answer) {
    match call
    case GetCall(id) => (m, if id in m then Found(m[id]) else Absent)
    case PutCall(id, entry, now) => (m[id := WithTime(entry, now)], Done)
    case DeleteCall(id) => (m - {id}, Done)
    case ListCall => (m, Ids(m.Keys))
  }

  /** The entries after a call on readable ones. */
  function After(m: Option<Entries>, call: Call): Option<Entries>
    requires m.Some?
  {
    Some(OnMap(m.value, call).0)
  }

  /** What a call does to the file: an answer is the map's answer, and the new file stands for the
      map's new value; an error leaves the entries as they were. */
  ghost predicate Serves(aead: Aead, codec: Codec, before: Blob, call: Call, answer: Answer, after: Blob) {
    var m := DecodeBlob(aead, codec, before);
    if answer.Error? then DecodeBlob(aead, codec, after) == m
    else m.Some? && answer == OnMap(m.value, call).1 && DecodeBlob(aead, codec, after) == Some(OnMap(m.value, call).0)
  }

  /** The map after the calls that were answered. */
  function Replay(m: Entries, calls: seq<Call>, answers: seq<Answer>): Entries
    requires |calls| == |answers|
    decreases |calls|
  {
    if calls == [] then m
    else Replay(if answers[0].Error? then m else OnMap(m, calls[0]).0, calls[1..], answers[1..])
  }

  /** A run of calls: `blobs` are the vault files before, between and after them. */
  ghost predicate IsRun(aead: Aead, codec: Codec, blobs: seq<Blob>, calls: seq<Call>, answers: seq<Answer>) {
    && |blobs| == |calls| + 1 == |answers| + 1
    && forall k :: 0 <= k < |calls| ==> Serves(aead, codec, blobs[k], calls[k], answers[k], blobs[k + 1])
  }

  /** The vault refines a map: in every run from a readable file, each answer is the one that the map
      of the calls answered before it gives, whatever errors occur in between. */
  lemma {:induction false} VaultIsMap(
    aead: Aead, codec: Codec, blobs: seq<Blob>, calls: seq<Call>, answers: seq<Answer>, m: Entries)
    requires IsRun(aead, codec, blobs, calls, answers)
    requires DecodeBlob(aead, codec, blobs[0]) == Some(m)
    ensures DecodeBlob(aead, codec, blobs[|calls|]) == Some(Replay(m, calls, answers))
    ensures forall k :: 0 <= k < |calls| && !answers[k].Error? ==>
      answers[k] == OnMap(Replay(m, calls[..k], answers[..k]), calls[k]).1
    decreases |calls|
  {
    if calls != [] {
      var m1 := if answers[0].Error? then m else OnMap(m, calls[0]).0;
      assert IsRun(aead, codec, blobs[1..], calls[1..], answers[1..]);
      VaultIsMap(aead, codec, blobs[1..], calls[1..], answers[1..], m1);
      forall k | 0 <= k < |calls| && !answers[k].Error?
        ensures answers[k] == OnMap(Replay(m, calls[..k], answers[..k]), calls[k]).1
      {
        if k > 0 {
          assert calls[1..][..k - 1] == calls[..k][1..] && answers[1..][..k - 1] == answers[..k][1..];
          assert answers[1..][k - 1] == answers[k];
        }
      }
    }
  }

  /** A credential that was stored is what is found, as long as nobody stores or deletes under the
      same name. */
  lemma {:induction false} StoredIsFound(m: Entries, calls: seq<Call>, answers: seq<Answer>, id: string)
    requires |calls| == |answers| && id in m
    requires forall c :: c in calls ==> !(c.PutCall? && c.id == id) && !(c.DeleteCall? && c.id == id)
    ensures id in Replay(m, calls, answers) && Replay(m, calls, answers)[id] == m[id]
    decreases |calls|
  {
    if calls != [] {
      assert calls[0] in calls;
      StoredIsFound(if answers[0].Error? then m else OnMap(m, calls[0]).0, calls[1..], answers[1..], id);
    }
  }

  // ---------- what runs answer ----------

  /** The call stores or deletes under the name. */
  predicate ChangesName(call: Call, id: string) {
    (call.PutCall? && call.id == id) || (call.DeleteCall? && call.id == id)
  }

  /** From call `j` up to call `k`, no call that changes the name is answered. */
  ghost predicate Quiet(calls: seq<Call>, answers: seq<Answer>, id: string, j: nat, k: nat)
    requires |calls| == |answers|
  {
    forall i :: j <= i < k && i < |calls| && ChangesName(calls[i], id) ==> answers[i].Error?
  }

  /** What the file has under the name. */
  function Held(aead: Aead, codec: Codec, b: Blob, id: string): Option<CredEntry> {
    var m := DecodeBlob(aead, codec, b);
    if m.Some? && id in m.value then Some(m.value[id]) else None
  }

  lemma {:induction false} QuietHolds(
    aead: Aead, codec: Codec, blobs: seq<Blob>, calls: seq<Call>, answers: seq<Answer>, id: string, j: nat, k: nat)
    requires IsRun(aead, codec, blobs, calls, answers) && j <= k <= |calls|
    requires Quiet(calls, answers, id, j, k)
    ensures Held(aead, codec, blobs[k], id) == Held(aead, codec, blobs[j], id)
    decreases k
  {
    if j < k {
      QuietHolds(aead, codec, blobs, calls, answers, id, j, k - 1);
      assert Serves(aead, codec, blobs[k - 1], calls[k - 1], answers[k - 1], blobs[k - 1 + 1]);
    }
  }

  /** A Get and a List that are answered tell what the file has. */
  lemma {:induction false} AnswersTell(
    aead: Aead, codec: Codec, before: Blob, call: Call, answer: Answer, after: Blob, id: string)
    requires Serves(aead, codec, before, call, answer, after) && !answer.Error?
    ensures call == GetCall(id) ==>
      answer == if Held(aead, codec, before, id).Some? then Found(Held(aead, codec, before, id).value) else Absent
    ensures call.ListCall? ==> answer.Ids? && (id in answer.ids <==> Held(aead, codec, before, id).Some?)
  {
  }

  /** A deleted name is gone: until it is stored again, a Get says so and a List does not have it. */
  lemma {:induction false} DeletedIsGone(
    aead: Aead, codec: Codec, blobs: seq<Blob>, calls: seq<Call>, answers: seq<Answer>, id: string, j: nat, k: nat)
    requires IsRun(aead, codec, blobs, calls, answers) && j < k < |calls|
    requires calls[j] == DeleteCall(id) && !answers[j].Error?
    requires Quiet(calls, answers, id, j + 1, k)
    requires !answers[k].Error?
    ensures calls[k] == GetCall(id) ==> answers[k] == Absent
    ensures calls[k].ListCall? ==> answers[k].Ids? && id !in answers[k].ids
  {
    assert Serves(aead, codec, blobs[j], calls[j], answers[j], blobs[j + 1]);
    QuietHolds(aead, codec, blobs, calls, answers, id, j + 1, k);
    assert Serves(aead, codec, blobs[k], calls[k], answers[k], blobs[k + 1]);
    AnswersTell(aead, codec, blobs[k], calls[k], answers[k], blobs[k + 1], id);
  }

  /** A stored entry is what a Get finds, with its time set if it had none, until the name is stored or
      deleted again; and a List has the name. */
  lemma {:induction false} StoredIsGot(
    aead: Aead, codec: Codec, blobs: seq<Blob>, calls: seq<Call>, answers: seq<Answer>,
    id: string, secret: string, time: int, now: int, j: nat, k: nat)
    requires IsRun(aead, codec, blobs, calls, answers) && j < k < |calls|
    requires calls[j] == PutCall(id, CredEntry(secret, time), now) && !answers[j].Error?
    requires Quiet(calls, answers, id, j + 1, k)
    requires !answers[k].Error?
    ensures calls[k] == GetCall(id) ==> answers[k] == Found(CredEntry(secret, if time == 0 then now else time))
    ensures calls[k].ListCall? ==> answers[k].Ids? && id in answers[k].ids
  {
    assert Serves(aead, codec, blobs[j], calls[j], answers[j], blobs[j + 1]);
    QuietHolds(aead, codec, blobs, calls, answers, id, j + 1, k);
    assert Serves(aead, codec, blobs[k], calls[k], answers[k], blobs[k + 1]);
    AnswersTell(aead, codec, blobs[k], calls[k], answers[k], blobs[k + 1], id);
  }

  /** Calls on other names, and calls that fail, change no answer about this name. */
  lemma {:induction false} SameAnswer(
    aead: Aead, codec: Codec, blobs: seq<Blob>, calls: seq<Call>, answers: seq<Answer>, id: string, j: nat, k: nat)
    requires IsRun(aead, codec, blobs, calls, answers) && j < k < |calls|
    requires Quiet(calls, answers, id, j, k)
    requires !answers[j].Error? && !answers[k].Error?
    ensures calls[j] == calls[k] == GetCall(id) ==> answers[j] == answers[k]
    ensures calls[j].ListCall? && calls[k].ListCall? ==>
      answers[j].Ids? && answers[k].Ids? && (id in answers[j].ids <==> id in answers[k].ids)
  {
    QuietHolds(aead, codec, blobs, calls, answers, id, j, k);
    assert Serves(aead, codec, blobs[j], calls[j], answers[j], blobs[j + 1]);
    assert Serves(aead, codec, blobs[k], calls[k], answers[k], blobs[k + 1]);
    AnswersTell(aead, codec, blobs[j], calls[j], answers[j], blobs[j + 1], id);
    AnswersTell(aead, codec, blobs[k], calls[k], answers[k], blobs[k + 1], id);
  }

  // ---------- the vault ----------

  datatype Step =
    | OpenBlob | LockBlob | LoadKey | ReadBlob | LoadKeyAgain | Randomize
    | CreateTemp | ChmodTemp | WriteTemp | SyncTemp | CloseTemp | RenameTemp | RemoveTemp

  /** What the surroundings do to one call: which steps work, how much of a failing write is written,
      the random nonce and the random name. */
  datatype Weather = Weather(works: Step -> bool, cut: nat, nonce: seq<Byte>, tmpName: string)
  {
    predicate Valid() {
      |nonce| == NONCE_SIZE
    }

    ghost predicate Fine() {
      forall s :: works(s)
    }
  }

  class Vault {
    const aead: Aead
    const codec: Codec
    var blob: Blob
    var temps: map<string, seq<Byte>>
    /** Every content that the vault file has had, in order. */
    ghost var history: seq<Blob>

    constructor (aead: Aead, codec: Codec, blob: Blob)
      ensures this.aead == aead && this.codec == codec && this.blob == blob && temps == map[] && history == [blob]
    {
      this.aead, this.codec, this.blob, temps, history := aead, codec, blob, map[], [blob];
    }

    ghost predicate Valid()
      reads this
    {
      OpensSeals(aead) && codec.Faithful() && history != [] && history[|history| - 1] == blob
    }

    function Decoded(): Option<Entries>
      reads this
    {
      DecodeBlob(aead, codec, blob)
    }

    function Has(id: string): Option<CredEntry>
      reads this
    {
      Held(aead, codec, blob, id)
    }

    /** Whoever reads the file at any moment since `since` gets the entries `a` or `b`. */
    ghost predicate Atomic(since: nat, a: Option<Entries>, b: Option<Entries>)
      reads this
    {
      && since <= |history|
      && forall k :: since <= k < |history| ==> DecodeBlob(aead, codec, history[k]) in {a, b}
    }

    /** Taking the lock creates the file if there is none. */
    method AcquireFileLock(w: Weather) returns (ok: bool)
      requires Valid()
      modifies this`blob, this`history
      ensures Valid() && Decoded() == old(Decoded())
      ensures old(history) <= history && Atomic(|old(history)|, old(Decoded()), old(Decoded()))
      ensures old(blob).Some? || !w.works(OpenBlob) ==> blob == old(blob)
      ensures old(blob).None? && w.works(OpenBlob) ==> blob == Some([])
      ensures ok <==> w.works(OpenBlob) && w.works(LockBlob)
    {
      if !w.works(OpenBlob) {
        return false;
      }
      if blob.None? {
        blob := Some([]);
        history := history + [blob];
      }
      // chmod and flock
      ok := w.works(LockBlob);
    }

    method ReadAll(w: Weather) returns (r: Option<Entries>)
      requires Valid()
      ensures r == if w.works(LoadKey) && (blob.None? || w.works(ReadBlob)) then Decoded() else None
    {
      if !w.works(LoadKey) {
        return None;
      }
      if blob.None? {
        return Some(map[]);
      }
      // the read and the audit of the permissions
      if !w.works(ReadBlob) {
        return None;
      }
      var data := blob.value;
      if data == [] {
        return Some(map[]);
      }
      var plain := Decrypt(data);
      if plain.None? {
        return None;
      }
      if plain.value == [] {
        return Some(map[]);
      }
      return codec.unmarshal(plain.value);
    }

    method Decrypt(b: seq<Byte>) returns (plain: Option<seq<Byte>>)
      ensures plain.Some? ==> |b| >= MIN_BLOB_SIZE && plain == aead.open(b[..NONCE_SIZE], [], b[NONCE_SIZE..])
      ensures plain.None? ==> |b| < MIN_BLOB_SIZE || aead.open(b[..NONCE_SIZE], [], b[NONCE_SIZE..]).None?
    {
      if |b| < MIN_BLOB_SIZE {
        return None;
      }
      var nonce := b[..NONCE_SIZE];
      var ct := b[NONCE_SIZE..];
      return aead.open(nonce, [], ct);
    }

    method Encrypt(plain: seq<Byte>, w: Weather) returns (b: Option<seq<Byte>>)
      requires w.Valid()
      ensures b == if w.works(Randomize) then Some(SealedBlob(aead, w.nonce, plain)) else None
    {
      if !w.works(Randomize) {
        return None;
      }
      var ct := aead.seal(w.nonce, [], plain);
      return Some(w.nonce + ct);
    }

    /** Encrypts the entries into a temporary file and renames it over the vault file. */
    method WriteAll(entries: Entries, w: Weather) returns (ok: bool)
      requires Valid() && w.Valid()
      modifies this`blob, this`temps, this`history
      ensures Valid() && old(history) <= history
      ensures ok ==> Decoded() == Some(entries) && temps == old(temps)
      ensures !ok ==> blob == old(blob) && history == old(history)
      ensures Atomic(|old(history)|, old(Decoded()), Some(entries))
      // the temporary file is cleaned up, if that works
      ensures w.works(RemoveTemp) ==> temps == old(temps)
      ensures w.Fine() && w.tmpName !in old(temps) && codec.marshal(entries).Some? ==> ok
    {
      var plain := codec.marshal(entries);
      if !w.works(LoadKeyAgain) || plain.None? {
        return false;
      }
      var ct := Encrypt(plain.value, w);
      if ct.None? {
        return false;
      }
      SealedReadsBack(aead, codec, w.nonce, entries);
      // a random name, refused if it exists
      if !w.works(CreateTemp) || w.tmpName in temps {
        return false;
      }
      temps := temps[w.tmpName := []];
      var written := FillTemp(ct.value, w);
      if !written || !w.works(RenameTemp) {
        CleanUp(w);
        assert w.works(RemoveTemp) ==> temps == old(temps);
        return false;
      }
      blob, temps := Some(temps[w.tmpName]), temps - {w.tmpName};
      history := history + [blob];
      assert temps == old(temps);
      return true;
    }

    /** Chmod, write, sync and close; a write that fails may have written a part. */
    method FillTemp(ct: seq<Byte>, w: Weather) returns (ok: bool)
      requires w.tmpName in temps
      modifies this`temps
      ensures temps.Keys == old(temps).Keys && temps - {w.tmpName} == old(temps) - {w.tmpName}
      ensures ok <==> w.works(ChmodTemp) && w.works(WriteTemp) && w.works(SyncTemp) && w.works(CloseTemp)
      ensures ok ==> temps[w.tmpName] == ct
      ensures w.works(ChmodTemp) && !w.works(WriteTemp) ==> temps[w.tmpName] == if w.cut < |ct| then ct[..w.cut] else ct
    {
      if !w.works(ChmodTemp) {
        return false;
      }
      if !w.works(WriteTemp) {
        temps := temps[w.tmpName := if w.cut < |ct| then ct[..w.cut] else ct];
        return false;
      }
      temps := temps[w.tmpName := ct];
      ok := w.works(SyncTemp) && w.works(CloseTemp);
    }

    method CleanUp(w: Weather)
      modifies this`temps
      ensures temps == if w.works(RemoveTemp) then old(temps) - {w.tmpName} else old(temps)
    {
      if w.works(RemoveTemp) {
        temps := temps - {w.tmpName};
      }
    }

    method Get(id: string, w: Weather) returns (r: Answer)
      requires Valid()
      modifies this`blob, this`history
      ensures Valid() && Serves(aead, codec, old(blob), GetCall(id), r, blob)
      ensures r == Error || r == (if Has(id).None? then Absent else Found(Has(id).value))
      ensures forall other :: Has(other) == old(Has(other))
      ensures old(history) <= history && Atomic(|old(history)|, old(Decoded()), old(Decoded()))
      ensures id == "" ==> r.Error?
      ensures id != "" && w.Fine() && old(Decoded()).Some? ==> !r.Error?
    {
      if id == "" {
        return Error;
      }
      var locked := AcquireFileLock(w);
      if !locked {
        return Error;
      }
      var entries := ReadAll(w);
      if entries.None? {
        return Error;
      }
      if id !in entries.value {
        return Absent;
      }
      return Found(entries.value[id]);
    }

    /** A call that changes the entries either answers, with the new ones stored, or fails, with the
        old ones; at no moment is anything else in the file. */
    method Put(id: string, entry: Option<CredEntry>, now: int, w: Weather) returns (r: Answer)
      requires Valid() && w.Valid()
      modifies this`blob, this`temps, this`history
      ensures Valid() && old(history) <= history
      ensures id == "" || entry.None? || old(Decoded()).None? ==> r.Error? && blob == old(blob)
      ensures entry.Some? ==> Serves(aead, codec, old(blob), PutCall(id, entry.value, now), r, blob)
      ensures r == Done ==>
        && entry.Some?
        && Has(id) == Some(CredEntry(entry.value.secret, if entry.value.connectedAt == 0 then now else entry.value.connectedAt))
      ensures forall other :: other != id || r != Done ==> Has(other) == old(Has(other))
      ensures entry.Some? && old(Decoded()).Some? ==>
        Atomic(|old(history)|, old(Decoded()), After(old(Decoded()), PutCall(id, entry.value, now)))
      ensures id != "" && entry.Some? && w.Fine() && w.tmpName !in old(temps) && old(Decoded()).Some? ==>
        (codec.marshal(After(old(Decoded()), PutCall(id, entry.value, now)).value).Some? ==> !r.Error?)
    {
      if id == "" {
        return Error;
      }
      if entry.None? {
        return Error;
      }
      var locked := AcquireFileLock(w);
      if !locked {
        return Error;
      }
      var entries := ReadAll(w);
      if entries.None? {
        return Error;
      }
      var cp := entry.value;
      if cp.connectedAt == ZERO_TIME {
        cp := cp.(connectedAt := now);
      }
      var ok := WriteAll(entries.value[id := cp], w);
      return if ok then Done else Error;
    }

    method Delete(id: string, w: Weather) returns (r: Answer)
      requires Valid() && w.Valid()
      modifies this`blob, this`temps, this`history
      ensures Valid() && old(history) <= history
      ensures id == "" || old(Decoded()).None? ==> r.Error? && blob == old(blob)
      ensures Serves(aead, codec, old(blob), DeleteCall(id), r, blob)
      ensures r == Done ==> Has(id).None?
      ensures forall other :: other != id || r != Done ==> Has(other) == old(Has(other))
      ensures old(Decoded()).Some? ==>
        Atomic(|old(history)|, old(Decoded()), After(old(Decoded()), DeleteCall(id)))
      ensures id != "" && w.Fine() && w.tmpName !in old(temps) && old(Decoded()).Some? ==>
        (codec.marshal(After(old(Decoded()), DeleteCall(id)).value).Some? ==> !r.Error?)
    {
      if id == "" {
        return Error;
      }
      var locked := AcquireFileLock(w);
      if !locked {
        return Error;
      }
      var entries := ReadAll(w);
      if entries.None? {
        return Error;
      }
      if id !in entries.value {
        assert entries.value - {id} == entries.value;
        return Done;
      }
      var ok := WriteAll(entries.value - {id}, w);
      return if ok then Done else Error;
    }

    method List(w: Weather) returns (r: Option<seq<string>>)
      requires Valid()
      modifies this`blob, this`history
      ensures Valid()
      ensures old(history) <= history && Atomic(|old(history)|, old(Decoded()), old(Decoded()))
      ensures Serves(aead, codec, old(blob), ListCall, if r.Some? then Ids(set id | id in r.value) else Error, blob)
      ensures r.Some? ==> forall i, j :: 0 <= i < j < |r.value| ==> r.value[i] != r.value[j]
      ensures w.Fine() && old(Decoded()).Some? ==> r.Some?
    {
      var locked := AcquireFileLock(w);
      if !locked {
        return None;
      }
      var entries := ReadAll(w);
      if entries.None? {
        return None;
      }
      var ids := Names(entries.value);
      return Some(ids);
    }
  }

  /** The keys, in an order that is not promised. */
  method Names(entries: Entries) returns (ids: seq<string>)
    ensures (set id | id in ids) == entries.Keys
    ensures forall i, j :: 0 <= i < j < |ids| ==> ids[i] != ids[j]
  {
    ids := [];
    var todo := entries.Keys;
    while todo != {}
      invariant forall id :: id in entries.Keys <==> id in ids || id in todo
      invariant forall id :: id in ids ==> id !in todo
      invariant forall i, j :: 0 <= i < j < |ids| ==> ids[i] != ids[j]
      decreases |todo|
    {
      var id :| id in todo;
      ids, todo := ids + [id], todo - {id};
    }
  }

  /** Any calls, one after the other, make a run. */
  method RunCalls(v: Vault, calls: seq<Call>, weathers: seq<Weather>) returns (answers: seq<Answer>, ghost blobs: seq<Blob>)
    requires v.Valid() && |calls| == |weathers| && forall w :: w in weathers ==> w.Valid()
    modifies v
    ensures v.Valid() && IsRun(v.aead, v.codec, blobs, calls, answers)
    ensures blobs[0] == old(v.blob) && blobs[|calls|] == v.blob
  {
    answers, blobs := [], [v.blob];
    for n := 0 to |calls|
      invariant v.Valid() && IsRun(v.aead, v.codec, blobs, calls[..n], answers)
      invariant blobs[0] == old(v.blob) && blobs[n] == v.blob
    {
      assert weathers[n] in weathers;
      var answer := Answered(v, calls[n], weathers[n]);
      OneMoreCall(v.aead, v.codec, blobs, calls[..n], answers, calls[n], answer, v.blob);
      assert calls[..n + 1] == calls[..n] + [calls[n]];
      answers, blobs := answers + [answer], blobs + [v.blob];
    }
    assert calls[..|calls|] == calls;
  }

  method Answered(v: Vault, call: Call, w: Weather) returns (answer: Answer)
    requires v.Valid() && w.Valid()
    modifies v
    ensures v.Valid() && Serves(v.aead, v.codec, old(v.blob), call, answer, v.blob)
  {
    match call {
      case GetCall(id) => answer := v.Get(id, w);
      case PutCall(id, entry, now) => answer := v.Put(id, Some(entry), now, w);
      case DeleteCall(id) => answer := v.Delete(id, w);
      case ListCall =>
        var ids := v.List(w);
        answer := if ids.Some? then Ids(set id | id in ids.value) else Error;
    }
  }

  lemma {:induction false} OneMoreCall(
    aead: Aead, codec: Codec, blobs: seq<Blob>, calls: seq<Call>, answers: seq<Answer>, call: Call, answer: Answer, after: Blob)
    requires IsRun(aead, codec, blobs, calls, answers) && Serves(aead, codec, blobs[|calls|], call, answer, after)
    ensures IsRun(aead, codec, blobs + [after], calls + [call], answers + [answer])
  {
    forall k | 0 <= k < |calls + [call]|
      ensures Serves(aead, codec, (blobs + [after])[k], (calls + [call])[k], (answers + [answer])[k], (blobs + [after])[k + 1])
    {
      if k < |calls| {
        assert Serves(aead, codec, blobs[k], calls[k], answers[k], blobs[k + 1]);
      }
    }
  }
}
