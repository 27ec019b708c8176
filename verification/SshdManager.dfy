/** The sshd_config editor's operations on the file and its backups, with their failures; and what a
    backup is worth after further operations. */
module SshdManager {
  import opened Wrappers
  import opened Strings
  import opened Numbers
  import opened Sshd

  datatype SshdError =
    | OpenFailed | LineTooLong | BackupFailed | ReadFailed | WriteFailed | IncludesFailed | NoBackup

  datatype Step =
    | MkdirBackups | ReadForBackup | OpenBackup | WriteBackup
    | ReadFile | OpenFile | WriteFile | Includes | ReadBackup

  /** Which steps of a call work, and how much a failing write has written. */
  datatype Weather = Weather(works: Step -> bool, cut: nat)

  function Torn(text: string, w: Weather): string {
    if w.cut <= |text| then text[..w.cut] else text
  }

  /** A backup file is named by the second in which it is made. */
  type Second = nat

  /** The main configuration file, if it is there, and the backups. */
  datatype Disk = Disk(content: Option<string>, backups: map<Second, string>)

  // ---------- what the operations do ----------

  /** The backup of second `now` is opened, which empties an earlier one of that second. */
  predicate OpensBackup(d: Disk, w: Weather) {
    w.works(MkdirBackups) && d.content.Some? && w.works(ReadForBackup) && w.works(OpenBackup)
  }

  /** `e` is the disk after writing `text` over the main file: the text, a part of it, or no change if
      the file cannot be opened. */
  predicate Overwrites(d: Disk, text: string, w: Weather, e: Disk) {
    && e.backups == d.backups
    && e.content == if !w.works(OpenFile) then d.content else Some(if w.works(WriteFile) then text else Torn(text, w))
  }

  predicate Updates(d: Disk, req: Request, now: Second, w: Weather, e: Disk, err: Option<SshdError>) {
    if !OpensBackup(d, w) then e == d && err == Some(BackupFailed)
    else if !w.works(WriteBackup) then
      e == d.(backups := d.backups[now := Torn(d.content.value, w)]) && err == Some(BackupFailed)
    else
      var saved := d.(backups := d.backups[now := d.content.value]);
      if !w.works(ReadFile) then e == saved && err == Some(ReadFailed)
      else
        && Overwrites(saved, Rewrite(d.content.value, req), w, e)
        && err == if !w.works(OpenFile) || !w.works(WriteFile) then Some(WriteFailed)
                  else if req.port.Some? && !w.works(Includes) then Some(IncludesFailed)
                  else None
  }

  predicate Restores(d: Disk, stamp: Second, w: Weather, e: Disk, err: Option<SshdError>) {
    if stamp !in d.backups || !w.works(ReadBackup) then e == d && err == Some(NoBackup)
    else
      && Overwrites(d, d.backups[stamp], w, e)
      && err == if w.works(OpenFile) && w.works(WriteFile) then None else Some(WriteFailed)
  }

  // ---------- runs ----------

  datatype Event = Update(req: Request, now: Second, w: Weather) | Restore(stamp: Second, w: Weather)

  predicate Happens(d: Disk, v: Event, e: Disk, err: Option<SshdError>) {
    match v
    case Update(req, now, w) => Updates(d, req, now, w, e, err)
    case Restore(stamp, w) => Restores(d, stamp, w, e, err)
  }

  /** `disks` are the states before, between and after the events. */
  ghost predicate IsRun(disks: seq<Disk>, events: seq<Event>, errs: seq<Option<SshdError>>) {
    && |disks| == |events| + 1 == |errs| + 1
    && forall k :: 0 <= k < |events| ==> Happens(disks[k], events[k], disks[k + 1], errs[k])
  }

  /** The event is an update of the second `stamp` that gets to open its backup. */
  predicate Touches(d: Disk, v: Event, stamp: Second) {
    v.Update? && v.now == stamp && OpensBackup(d, v.w)
  }

  /** What an update that opens its backup stores there. */
  function StoredBy(d: Disk, w: Weather): string
    requires d.content.Some?
  {
    if w.works(WriteBackup) then d.content.value else Torn(d.content.value, w)
  }

  /** The last event before `n` that opens the backup of a second that event `k` has opened. */
  function LastTouch(disks: seq<Disk>, events: seq<Event>, stamp: Second, k: nat, n: nat): (j: nat)
    requires k < n <= |events| && |events| < |disks| && Touches(disks[k], events[k], stamp)
    ensures k <= j < n && Touches(disks[j], events[j], stamp)
    ensures forall i :: j < i < n ==> !Touches(disks[i], events[i], stamp)
    decreases n
  {
    if n - 1 == k || Touches(disks[n - 1], events[n - 1], stamp) then n - 1
    else LastTouch(disks, events, stamp, k, n - 1)
  }

  lemma {:induction false} LastTouchStored(
    disks: seq<Disk>, events: seq<Event>, errs: seq<Option<SshdError>>, stamp: Second, j: nat, n: nat)
    requires IsRun(disks, events, errs) && j < n <= |events|
    requires Touches(disks[j], events[j], stamp)
    requires forall i :: j < i < n ==> !Touches(disks[i], events[i], stamp)
    ensures stamp in disks[n].backups && disks[n].backups[stamp] == StoredBy(disks[j], events[j].w)
    decreases n
  {
    assert Happens(disks[n - 1], events[n - 1], disks[n - 1 + 1], errs[n - 1]);
    if n > j + 1 {
      LastTouchStored(disks, events, errs, stamp, j, n - 1);
      assert !Touches(disks[n - 1], events[n - 1], stamp);
    }
  }

  /** A backup that was written stays until an update of the same second opens it again. */
  lemma {:induction false} BackupStays(
    disks: seq<Disk>, events: seq<Event>, errs: seq<Option<SshdError>>, k: nat, n: nat)
    requires IsRun(disks, events, errs) && k < n <= |events|
    requires events[k].Update? && OpensBackup(disks[k], events[k].w) && events[k].w.works(WriteBackup)
    requires forall j :: k < j < n ==> !Touches(disks[j], events[j], events[k].now)
    ensures events[k].now in disks[n].backups
    ensures disks[n].backups[events[k].now] == disks[k].content.value
  {
    LastTouchStored(disks, events, errs, events[k].now, k, n);
  }

  /** Restoring, in any run, the backup that update `k` named: when it succeeds, the file is again the
      one that the update replaced, unless another update of the same second has touched the backup. */
  lemma {:induction false} RestoreUndoes(
    disks: seq<Disk>, events: seq<Event>, errs: seq<Option<SshdError>>, k: nat, n: nat)
    requires IsRun(disks, events, errs) && k < n < |events|
    requires events[k].Update? && OpensBackup(disks[k], events[k].w) && events[k].w.works(WriteBackup)
    requires forall j :: k < j < n ==> !Touches(disks[j], events[j], events[k].now)
    requires events[n].Restore? && events[n].stamp == events[k].now
    ensures errs[n].None? ==> disks[n + 1].content == disks[k].content
    ensures errs[n].None? <==> events[n].w.works(ReadBackup) && events[n].w.works(OpenFile) && events[n].w.works(WriteFile)
  {
    BackupStays(disks, events, errs, k, n);
    assert Happens(disks[n], events[n], disks[n + 1], errs[n]);
  }

  /** Restoring, in any run, the backup that update `k` opened: when it succeeds, the file is again the
      one that the update replaced if and only if the last update of that second to open the backup
      stored just that. */
  lemma {:induction false} RestoreExactly(
    disks: seq<Disk>, events: seq<Event>, errs: seq<Option<SshdError>>, k: nat, n: nat)
    requires IsRun(disks, events, errs) && k < n < |events|
    requires events[k].Update? && Touches(disks[k], events[k], events[k].now)
    requires events[n].Restore? && events[n].stamp == events[k].now
    ensures errs[n].None? <==> events[n].w.works(ReadBackup) && events[n].w.works(OpenFile) && events[n].w.works(WriteFile)
    ensures errs[n].None? ==>
      var j := LastTouch(disks, events, events[k].now, k, n);
      disks[n + 1].content == disks[k].content <==> StoredBy(disks[j], events[j].w) == disks[k].content.value
  {
    LastTouchStored(disks, events, errs, events[k].now, LastTouch(disks, events, events[k].now, k, n), n);
    assert Happens(disks[n], events[n], disks[n + 1], errs[n]);
  }

  /** Two successful updates in one second, and then the restore that the first one offers: the file
      is the original exactly when the first update had changed nothing. */
  lemma {:induction false} SameSecond(
    disks: seq<Disk>, events: seq<Event>, errs: seq<Option<SshdError>>, r1: Request, r2: Request, now: Second,
    w1: Weather, w2: Weather, w3: Weather)
    requires IsRun(disks, events, errs) && errs == [None, None, None]
    requires events == [Update(r1, now, w1), Update(r2, now, w2), Restore(now, w3)]
    ensures disks[0].content.Some?
    ensures disks[3].content == disks[0].content <==> Rewrite(disks[0].content.value, r1) == disks[0].content.value
  {
    assert Happens(disks[0], events[0], disks[0 + 1], errs[0]);
    assert Happens(disks[1], events[1], disks[1 + 1], errs[1]);
    assert Happens(disks[2], events[2], disks[2 + 1], errs[2]);
  }

  // ---------- the manager ----------

  /** Rewrites the lines of a file in place; returns the keys that were rewritten. */
  method UpdateLines(lines: array<string>, req: Request) returns (updated: set<Key>)
    modifies lines
    ensures lines[..] == Mapped(old(lines[..]), req)
    ensures updated == Updated(old(lines[..]), req)
  {
    updated := {};
    ghost var before := lines[..];
    for i := 0 to lines.Length
      invariant forall j :: 0 <= j < i ==> lines[j] == Rewritten(before[j], req)
      invariant forall j :: i <= j < lines.Length ==> lines[j] == before[j]
      invariant updated == Updated(before[..i], req)
    {
      assert before[..i + 1] == before[..i] + [before[i]];
      var key := WrittenKey(lines[i]);
      if key.Some? {
        var value := Wanted(req, key.value);
        if value.Some? {
          lines[i] := Directive(key.value, value.value);
          updated := updated + {key.value};
        }
      }
    }
    assert before[..lines.Length] == before;
  }

  class SSHDConfigManager {
    var content: Option<string>
    var backups: map<Second, string>

    constructor (content: Option<string>, backups: map<Second, string>)
      ensures this.content == content && this.backups == backups
    {
      this.content, this.backups := content, backups;
    }

    function State(): Disk
      reads this
    {
      Disk(content, backups)
    }

    /** Reads the file line by line; a setting that is not there has its default. */
    method GetCurrentConfig() returns (config: Config, err: Option<SshdError>)
      ensures content.None? ==> err == Some(OpenFailed)
      ensures content.Some? ==>
        && config == Settings(content.value)
        && err == if LinesFit(Split(content.value, '\n')) then None else Some(LineTooLong)
    {
      config := DEFAULT;
      if content.None? {
        return config, Some(OpenFailed);
      }
      var lines := Split(content.value, '\n');
      AllScanned(lines);
      var i := 0;
      while i < |lines|
        invariant 0 <= i <= |lines|
        invariant ApplyAll(config, Scanned(lines[i..])) == ApplyAll(DEFAULT, Scanned(lines))
        invariant forall j :: 0 <= j < i ==> |lines[j]| <= MAX_LINE
      {
        if |lines[i]| > MAX_LINE {
          return config, Some(LineTooLong);
        }
        assert lines[i..][1..] == lines[i + 1..];
        assert Scanned(lines[i..])[1..] == Scanned(lines[i + 1..]);
        config := Apply(config, lines[i]);
        i := i + 1;
      }
      return config, None;
    }

    method CreateBackup(now: Second, w: Weather) returns (ok: bool)
      modifies this`backups
      ensures ok <==> OpensBackup(old(State()), w) && w.works(WriteBackup)
      ensures backups ==
        if OpensBackup(old(State()), w) then old(backups)[now := if ok then content.value else Torn(content.value, w)]
        else old(backups)
    {
      if !w.works(MkdirBackups) || content.None? || !w.works(ReadForBackup) || !w.works(OpenBackup) {
        return false;
      }
      ok := w.works(WriteBackup);
      backups := backups[now := if ok then content.value else Torn(content.value, w)];
    }

    /** os.WriteFile on the main file. */
    method WriteMain(text: string, w: Weather) returns (ok: bool)
      modifies this`content
      ensures ok <==> w.works(OpenFile) && w.works(WriteFile)
      ensures Overwrites(old(State()), text, w, State())
    {
      if !w.works(OpenFile) {
        return false;
      }
      ok := w.works(WriteFile);
      content := Some(if ok then text else Torn(text, w));
    }

    /** Backs the file up, rewrites it, and goes on to the included files. */
    method UpdateConfig(req: Request, now: Second, w: Weather) returns (err: Option<SshdError>)
      modifies this
      ensures Updates(old(State()), req, now, w, State(), err)
      // it succeeds exactly when the file is there and every step works, and then has done this
      ensures err.None? <==>
        && old(content).Some?
        && (forall s | s in {MkdirBackups, ReadForBackup, OpenBackup, WriteBackup, ReadFile, OpenFile, WriteFile} :: w.works(s))
        && (req.port.Some? ==> w.works(Includes))
      ensures err.None? || err == Some(IncludesFailed) ==>
        && old(content).Some?
        && content == Some(Rewrite(old(content).value, req))
        && backups == old(backups)[now := old(content).value]
      // nothing is lost: what was in the file is still there, or in the backup of this second
      ensures old(content).Some? ==>
        content == old(content) || (now in backups && backups[now] == old(content).value)
    {
      var backedUp := CreateBackup(now, w);
      if !backedUp {
        return Some(BackupFailed);
      }
      if !w.works(ReadFile) {
        return Some(ReadFailed);
      }
      var newContent := NewContent(content.value, req);
      var written := WriteMain(newContent, w);
      if !written {
        return Some(WriteFailed);
      }
      if req.port.Some? && !w.works(Includes) {
        return Some(IncludesFailed);
      }
      return None;
    }

    method NewContent(text: string, req: Request) returns (newContent: string)
      ensures newContent == Rewrite(text, req)
    {
      var split := Split(text, '\n');
      var lines := new string[|split|](i requires 0 <= i < |split| => split[i]);
      assert lines[..] == split;
      var updated := UpdateLines(lines, req);
      var all := lines[..];
      all := Append(all, Additions(req, updated));
      newContent := Join(all, "\n");
    }

    method Append(lines: seq<string>, additions: seq<string>) returns (all: seq<string>)
      ensures all == lines + if additions == [] then [] else ["", MARKER] + additions
    {
      all := lines;
      if |additions| > 0 {
        all := all + [""];
        all := all + [MARKER];
        all := all + additions;
      }
    }

    /** Puts the backup of a second back. */
    method RestoreBackup(stamp: Second, w: Weather) returns (err: Option<SshdError>)
      modifies this`content
      ensures Restores(old(State()), stamp, w, State(), err)
    {
      if stamp !in backups || !w.works(ReadBackup) {
        return Some(NoBackup);
      }
      var written := WriteMain(backups[stamp], w);
      return if written then None else Some(WriteFailed);
    }
  }

  /** Any calls of the manager, one after the other, make a run. */
  method RunEvents(m: SSHDConfigManager, events: seq<Event>) returns (errs: seq<Option<SshdError>>, ghost disks: seq<Disk>)
    modifies m
    ensures IsRun(disks, events, errs)
    ensures disks[0] == old(m.State()) && disks[|events|] == m.State()
  {
    errs, disks := [], [m.State()];
    for i := 0 to |events|
      invariant IsRun(disks, events[..i], errs)
      invariant disks[0] == old(m.State()) && disks[i] == m.State()
    {
      var err;
      match events[i] {
        case Update(req, now, w) => err := m.UpdateConfig(req, now, w);
        case Restore(stamp, w) => err := m.RestoreBackup(stamp, w);
      }
      OneMoreEvent(disks, events[..i], errs, events[i], m.State(), err);
      assert events[..i] + [events[i]] == events[..i + 1];
      errs, disks := errs + [err], disks + [m.State()];
    }
    assert events[..|events|] == events;
  }

  lemma {:induction false} OneMoreEvent(
    disks: seq<Disk>, events: seq<Event>, errs: seq<Option<SshdError>>, v: Event, e: Disk, err: Option<SshdError>)
    requires IsRun(disks, events, errs) && Happens(disks[|events|], v, e, err)
    ensures IsRun(disks + [e], events + [v], errs + [err])
  {
    forall k | 0 <= k < |events + [v]|
      ensures Happens((disks + [e])[k], (events + [v])[k], (disks + [e])[k + 1], (errs + [err])[k])
    {
      if k < |events| {
        assert Happens(disks[k], events[k], disks[k + 1], errs[k]);
      }
    }
  }
}
