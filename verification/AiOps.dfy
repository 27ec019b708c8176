/** The AI file operations step by step: what they change, what they return, and what a failure at
    any step leaves. */
module AiOps {
  import opened Wrappers
  import opened Strings
  import opened FileTree
  import opened Undo

  const MAX_WRITE_BYTES := 10 * 1024 * 1024
  const MAX_DELETE_DIR_BYTES := 1024 * 1024 * 1024
  const MAX_DELETE_DIR_FILES := 50_000
  const NEW_FILE_MODE := 0x1A4  // 0644
  const LINK_MODE := 0x1FF      // lstat's permission bits of a symlink: 0777

  datatype FsError =
    | NoInvocation | TooLarge | MkdirFailed | TreeTooLarge | BackupFailed | NoSpace
    | TempFailed | RenameFailed | NotFound | NeedsRecursive | RemoveFailed
    | EmptyPattern | SameStrings | NotReadable | PatternNotFound | Ambiguous(count: nat)

  /** The result of walking a tree: bytes and number of its regular files. */
  datatype TreeSize = TreeSize(total: nat, files: nat)

  datatype BackupInfo = BackupInfo(
    path: Path,
    backupPath: Option<BackupId>,
    originalAbsent: bool,
    isDir: bool,
    mode: nat,
    uid: nat,
    gid: nat,
    recipe: Recipe)

  function ModeOf(n: Node): nat {
    match n
    case File(_, m) => m.mode
    case Link(_, _, _) => LINK_MODE
    case Dir(m) => m.mode
  }

  function UidOf(n: Node): nat {
    match n case File(_, m) => m.uid case Link(_, u, _) => u case Dir(m) => m.uid
  }

  function GidOf(n: Node): nat {
    match n case File(_, m) => m.gid case Link(_, _, g) => g case Dir(m) => m.gid
  }

  /** Where the backup of `abs` goes: under the invocation, by the last component of its path. */
  function BackupPath(root: Path, invocation: string, abs: Path, isDir: bool): BackupId
    requires abs != []
  {
    root + [invocation, if isDir then Base(abs) + ".tar.gz" else Base(abs)]
  }

  /** Two backups are in one place exactly when they are made in one invocation under one name. */
  lemma {:induction false} SamePlace(root: Path, v1: string, p1: Path, d1: bool, v2: string, p2: Path, d2: bool)
    requires p1 != [] && p2 != []
    ensures BackupPath(root, v1, p1, d1) == BackupPath(root, v2, p2, d2)
       <==> v1 == v2 && Base(p1) + (if d1 then ".tar.gz" else "") == Base(p2) + (if d2 then ".tar.gz" else "")
  {
    var (a, b) := (BackupPath(root, v1, p1, d1), BackupPath(root, v2, p2, d2));
    assert Base(p1) + "" == Base(p1) && Base(p2) + "" == Base(p2);
    assert a[|root|] == v1 && b[|root|] == v2;
    assert a[|root| + 1] == (if d1 then Base(p1) + ".tar.gz" else Base(p1));
    assert b[|root| + 1] == (if d2 then Base(p2) + ".tar.gz" else Base(p2));
  }

  /** The record and the backups after a capture of `p`. */
  function Info(w: Tree, p: Path, id: BackupId): BackupInfo
    requires p != []
  {
    if p !in w then BackupInfo(p, None, true, false, 0, 0, 0, RecipeFor(w, p, id))
    else
      BackupInfo(p, if w[p].Link? then None else Some(id), false, w[p].Dir?,
                 ModeOf(w[p]), UidOf(w[p]), GidOf(w[p]), RecipeFor(w, p, id))
  }

  // ---------- what the surroundings do ----------

  datatype Step =
    | MkdirParent | MkdirBackups | StatTarget | ReadLink | WalkTree
    | OpenOriginal | OpenBackup | CopyFile | SyncBackup | ArchiveTree | FlushArchive
    | FreeSpace | CreateTemp | WriteTemp | SyncTemp | CloseTemp | ChmodTemp | Chown | Rename
    | RemoveTemp | ReadOriginal | RemoveTarget

  /** Which steps of a call work, the size of the target if it is a directory, the random name of the
      temporary file, what a backup that is not completed holds (the length of a file's copy; what
      `tar` still reads from an archive), and which nodes a tree removal that fails has reached. */
  datatype Weather = Weather(
    works: Step -> bool, size: TreeSize, tmpName: string, cut: nat, torn: Tree, gone: set<Path>)

  /** Opening the backup file empties it. This is reached ... */
  predicate Truncates(t: Tree, abs: Path, w: Weather) {
    && w.works(MkdirBackups) && w.works(StatTarget) && abs in t
    && match t[abs]
       case Link(_, _, _) => false
       case Dir(_) =>
         && w.works(WalkTree)
         && w.size.total <= MAX_DELETE_DIR_BYTES && w.size.files <= MAX_DELETE_DIR_FILES
         && w.works(OpenBackup)
       case File(_, _) => w.works(OpenOriginal) && w.works(OpenBackup)
  }

  /** ... and this is what makes the capture succeed. The errors of flushing an archive are dropped. */
  predicate Captures(t: Tree, abs: Path, w: Weather) {
    && w.works(MkdirBackups) && w.works(StatTarget)
    && (abs in t ==>
          match t[abs]
          case Link(_, _, _) => w.works(ReadLink)
          case Dir(_) => Truncates(t, abs, w) && w.works(ArchiveTree)
          case File(_, _) => Truncates(t, abs, w) && w.works(CopyFile) && w.works(SyncBackup))
  }

  /** What the backup file holds when it is not completed. */
  function TornBackup(t: Tree, abs: Path, w: Weather): Backup
    requires abs != [] && abs in t
  {
    if t[abs].File? then Copy(if w.cut < |t[abs].content| then t[abs].content[..w.cut] else t[abs].content)
    else Archive(map e | e in w.torn && e in RelativeTree(t, abs) :: w.torn[e])
  }

  /** The backups after a capture that succeeds, and after one that fails. */
  function Stored(t: Tree, abs: Path, id: BackupId, backups: Backups, w: Weather): Backups
    requires abs != []
  {
    var snap := Snapshot(t, abs);
    if snap.None? then backups
    else if t[abs].Dir? && !w.works(FlushArchive) then backups[id := TornBackup(t, abs, w)]
    else backups[id := snap.value]
  }

  function LeftBehind(t: Tree, abs: Path, id: BackupId, backups: Backups, w: Weather): Backups
    requires abs != []
  {
    if Truncates(t, abs, w) then backups[id := TornBackup(t, abs, w)] else backups
  }

  /** The new content can be put into place. */
  predicate Replaces(t: Tree, abs: Path, w: Weather)
    requires abs != []
  {
    && w.works(CreateTemp) && Parent(abs) + [w.tmpName] !in t
    && w.works(WriteTemp) && w.works(SyncTemp) && w.works(CloseTemp) && w.works(ChmodTemp)
    && w.works(Rename) && !IsDir(t, abs)
  }

  predicate Writes(t: Tree, invocation: string, abs: Path, content: string, w: Weather)
    requires abs != []
  {
    && invocation != "" && |content| <= MAX_WRITE_BYTES
    && w.works(MkdirParent) && CanMkdirAll(t, Parent(abs))
    && Captures(t, abs, w) && w.works(FreeSpace) && Replaces(t, abs, w)
  }

  /** The mode asked for, or else the old one; the old owner, if setting it is allowed. */
  function WrittenMeta(t: Tree, abs: Path, reqMode: nat, agent: Meta, w: Weather): Meta {
    if abs !in t then Meta(if reqMode != 0 then reqMode else NEW_FILE_MODE, agent.uid, agent.gid)
    else
      Meta(if reqMode != 0 then reqMode else ModeOf(t[abs]),
           if w.works(Chown) then UidOf(t[abs]) else agent.uid,
           if w.works(Chown) then GidOf(t[abs]) else agent.gid)
  }

  /** What a write leaves: the content at `abs`, with the mode asked for, or else that of the old file, or
      else 0644; with the owner of the old file, if setting it is allowed; nothing else is changed, and
      what is new besides is directories above `abs`. */
  ghost predicate Wrote(
    t: Tree, now: Tree, abs: Path, content: string, reqMode: nat, agent: Meta, chowns: bool)
  {
    && abs in now && now[abs].File? && now[abs].content == content
    && (reqMode != 0 ==> now[abs].meta.mode == reqMode)
    && (reqMode == 0 && abs !in t ==> now[abs].meta.mode == 0x1A4)
    && (reqMode == 0 && abs in t && t[abs].File? ==> now[abs].meta.mode == t[abs].meta.mode)
    && (reqMode == 0 && abs in t && t[abs].Link? ==> now[abs].meta.mode == 0x1FF)
    && (chowns && abs in t && t[abs].File? ==>
          now[abs].meta.uid == t[abs].meta.uid && now[abs].meta.gid == t[abs].meta.gid)
    && (chowns && abs in t && t[abs].Link? ==> now[abs].meta.uid == t[abs].uid && now[abs].meta.gid == t[abs].gid)
    && (!chowns || abs !in t ==> now[abs].meta.uid == agent.uid && now[abs].meta.gid == agent.gid)
    && (forall p :: p in t && p != abs ==> p in now && now[p] == t[p])
    && (forall p :: p in now && p !in t && p != abs ==> p <= abs && now[p] == Dir(agent))
  }

  lemma {:induction false} EffectWrote(t: Tree, abs: Path, content: string, reqMode: nat, agent: Meta, w: Weather)
    requires abs != [] && CanDo(Write(abs, content, WrittenMeta(t, abs, reqMode, agent, w), agent), t)
    ensures Wrote(t, Effect(Write(abs, content, WrittenMeta(t, abs, reqMode, agent, w), agent), t),
                  abs, content, reqMode, agent, w.works(Chown))
  {
    assert abs !in Missing(t, Parent(abs));
    forall q | q in Missing(t, Parent(abs))
      ensures q <= abs
    {
      var k :| 0 <= k <= |Parent(abs)| && q == Parent(abs)[..k];
      assert q == abs[..k];
    }
  }

  /** What a delete leaves: nothing at `abs` and below, and all else as it was. */
  ghost predicate Deleted(t: Tree, now: Tree, abs: Path) {
    && (forall p :: p in now <==> p in t && !(abs <= p))
    && (forall p :: p in now ==> now[p] == t[p])
  }

  /** What was at `abs` has not been lost: it is still there, or in the backup that goes by its name. A
      symlink is in the recipe; an archive that was not flushed is the exception. */
  ghost predicate Saved(
    t: Tree, now: Tree, backups: Backups, root: Path, invocation: string, abs: Path, flushes: bool)
    requires abs != []
  {
    abs in t ==>
      match t[abs]
      case File(content, _) =>
        || (abs in now && now[abs] == t[abs])
        || (var id := root + [invocation, Base(abs)]; id in backups && backups[id] == Copy(content))
      case Link(_, _, _) => true
      case Dir(_) =>
        || (forall q :: q in t && abs <= q ==> q in now && now[q] == t[q])
        || (var id := root + [invocation, Base(abs) + ".tar.gz"];
            flushes ==> id in backups && backups[id] == Archive(RelativeTree(t, abs)))
  }

  /** The record of a capture, field by field. */
  lemma {:induction false} InfoFields(t: Tree, abs: Path, id: BackupId)
    requires abs != []
    ensures var i := Info(t, abs, id);
      && i.path == abs && i.recipe == RecipeFor(t, abs, id)
      && i.originalAbsent == (abs !in t) && i.isDir == IsDir(t, abs)
      && (abs in t && t[abs].File? ==>
            i.backupPath == Some(id) && i.mode == t[abs].meta.mode && i.uid == t[abs].meta.uid && i.gid == t[abs].meta.gid)
      && (abs in t && t[abs].Dir? ==>
            i.backupPath == Some(id) && i.mode == t[abs].meta.mode && i.uid == t[abs].meta.uid && i.gid == t[abs].meta.gid)
      && (abs in t && t[abs].Link? ==> i.backupPath == None && i.mode == 0x1FF && i.uid == t[abs].uid && i.gid == t[abs].gid)
      && (abs !in t ==> i.backupPath == None)
  {
  }

  /** All the steps work. */
  predicate AllWork(w: Weather, steps: seq<Step>) {
    forall i :: 0 <= i < |steps| ==> w.works(steps[i])
  }

  /** The steps that a backup of what is at `abs` takes. */
  function BackupSteps(t: Tree, abs: Path): seq<Step> {
    if abs !in t then [MkdirBackups, StatTarget]
    else
      match t[abs]
      case File(_, _) => [MkdirBackups, StatTarget, OpenOriginal, OpenBackup, CopyFile, SyncBackup]
      case Link(_, _, _) => [MkdirBackups, StatTarget, ReadLink]
      case Dir(_) => [MkdirBackups, StatTarget, WalkTree, OpenBackup, ArchiveTree]
  }

  /** A backup is made exactly when all its steps work; a tree has to be within the limits, too. */
  lemma {:induction false} CapturesExactly(t: Tree, abs: Path, w: Weather)
    ensures Captures(t, abs, w) <==>
      && AllWork(w, BackupSteps(t, abs))
      && (IsDir(t, abs) ==> w.size.total <= 1024 * 1024 * 1024 && w.size.files <= 50_000)
  {
    var steps := BackupSteps(t, abs);
    assert |steps| >= 2 && steps[0] == MkdirBackups && steps[1] == StatTarget;
    assert |steps| >= 3 ==> steps[2] in {OpenOriginal, ReadLink, WalkTree};
    assert |steps| >= 5 ==> steps[3] == OpenBackup && steps[4] in {CopyFile, ArchiveTree};
    assert |steps| == 6 ==> steps[5] == SyncBackup;
  }

  /** And a write is made exactly when in addition its own steps work, nothing stands in the way, and it
      is asked for under an invocation with a content within the limit. */
  lemma {:induction false} WritesExactly(t: Tree, invocation: string, abs: Path, content: string, w: Weather)
    requires abs != []
    ensures Writes(t, invocation, abs, content, w) <==>
      && invocation != "" && |content| <= 10 * 1024 * 1024
      && Captures(t, abs, w)
      && AllWork(w, [MkdirParent, FreeSpace, CreateTemp, WriteTemp, SyncTemp, CloseTemp, ChmodTemp, Rename])
      && (forall q :: q in t && q <= Parent(abs) ==> t[q].Dir?)
      && !IsDir(t, abs) && Parent(abs) + [w.tmpName] !in t
  {
    var steps := [MkdirParent, FreeSpace, CreateTemp, WriteTemp, SyncTemp, CloseTemp, ChmodTemp, Rename];
    assert steps[0] == MkdirParent && steps[1] == FreeSpace && steps[2] == CreateTemp && steps[3] == WriteTemp;
    assert steps[4] == SyncTemp && steps[5] == CloseTemp && steps[6] == ChmodTemp && steps[7] == Rename;
    NoneInTheWay(t, Parent(abs));
  }

  lemma {:induction false} NoneInTheWay(t: Tree, p: Path)
    ensures CanMkdirAll(t, p) <==> forall q :: q in t && q <= p ==> t[q].Dir?
  {
    if CanMkdirAll(t, p) {
      forall q | q in t && q <= p
        ensures t[q].Dir?
      {
        assert q == p[..|q|];
      }
    }
  }

  /** Everything that was there is there. */
  ghost predicate Kept(t: Tree, now: Tree) {
    forall p :: p in t ==> p in now && now[p] == t[p]
  }

  /** And only directories are new. */
  ghost predicate OnlyDirsAdded(t: Tree, now: Tree) {
    Kept(t, now) && forall p :: p in now && p !in t ==> now[p].Dir?
  }

  // ---------- the operations ----------

  class Manager {
    var world: Tree
    var backups: Backups
    const agent: Meta  // the mode and owner of what the agent makes
    const root: Path  // the backup root

    ghost predicate Valid()
      reads this`world
    {
      WellFormed(world)
    }

    constructor (world: Tree, backups: Backups, agent: Meta, root: Path)
      requires WellFormed(world)
      ensures Valid() && this.world == world && this.backups == backups && this.agent == agent && this.root == root
    {
      this.world, this.backups, this.agent, this.root := world, backups, agent, root;
    }

    function IdFor(t: Tree, invocation: string, abs: Path): BackupId
      requires abs != []
    {
      BackupPath(root, invocation, abs, IsDir(t, abs))
    }

    /** Stores what is at `abs` and makes the recipe. */
    method CaptureBackup(invocation: string, abs: Path, w: Weather) returns (r: Result<BackupInfo, FsError>)
      requires abs != []
      modifies this`backups
      ensures r.Success? <==> Captures(world, abs, w)
      ensures var id := IdFor(world, invocation, abs);
        if r.Success? then r.value == Info(world, abs, id) && backups == Stored(world, abs, id, old(backups), w)
        else backups == LeftBehind(world, abs, id, old(backups), w)
    {
      var id := BackupPath(root, invocation, abs, IsDir(world, abs));
      if !w.works(MkdirBackups) || !w.works(StatTarget) {
        return Failure(BackupFailed);
      }
      if abs !in world {
        return Success(BackupInfo(abs, None, true, false, 0, 0, 0, RmF(abs)));
      }
      var st := world[abs];
      var (mode, uid, gid) := (ModeOf(st), UidOf(st), GidOf(st));
      if st.Link? {
        if !w.works(ReadLink) {
          return Failure(BackupFailed);
        }
        return Success(BackupInfo(abs, None, false, false, mode, uid, gid, LnSfn(st.target, abs)));
      }
      if st.Dir? {
        if !w.works(WalkTree) {
          return Failure(BackupFailed);
        }
        if w.size.total > MAX_DELETE_DIR_BYTES || w.size.files > MAX_DELETE_DIR_FILES {
          return Failure(TreeTooLarge);
        }
        var archived := TarGzDir(abs, id, w);
        if !archived {
          return Failure(BackupFailed);
        }
        return Success(BackupInfo(abs, Some(id), false, true, mode, uid, gid, MkdirAndTarX(Parent(abs), id)));
      }
      var copied := CopyFilePreservingMode(abs, id, w);
      if !copied {
        return Failure(BackupFailed);
      }
      return Success(BackupInfo(abs, Some(id), false, false, mode, uid, gid, Install(mode, uid, gid, id, abs)));
    }

    method TarGzDir(abs: Path, id: BackupId, w: Weather) returns (ok: bool)
      requires abs != [] && IsDir(world, abs)
      modifies this`backups
      ensures ok <==> w.works(OpenBackup) && w.works(ArchiveTree)
      ensures backups ==
        if !w.works(OpenBackup) then old(backups)
        else old(backups)[id := if w.works(ArchiveTree) && w.works(FlushArchive) then Archive(RelativeTree(world, abs))
                                else TornBackup(world, abs, w)]
    {
      if !w.works(OpenBackup) {
        return false;
      }
      backups := backups[id := TornBackup(world, abs, w)];
      ok := w.works(ArchiveTree);
      // the deferred closes write what the compressor still holds
      if ok && w.works(FlushArchive) {
        backups := backups[id := Archive(RelativeTree(world, abs))];
      }
    }

    method CopyFilePreservingMode(abs: Path, id: BackupId, w: Weather) returns (ok: bool)
      requires abs != [] && abs in world && world[abs].File?
      modifies this`backups
      ensures w.works(OpenOriginal) && w.works(OpenBackup) ==>
        && id in backups && backups[id].Copy? && backups[id].content <= world[abs].content
        && (!ok ==> |backups[id].content| == if w.cut < |world[abs].content| then w.cut else |world[abs].content|)
      ensures ok <==> w.works(OpenOriginal) && w.works(OpenBackup) && w.works(CopyFile) && w.works(SyncBackup)
      ensures backups ==
        if !w.works(OpenOriginal) || !w.works(OpenBackup) then old(backups)
        else old(backups)[id := if ok then Copy(world[abs].content) else TornBackup(world, abs, w)]
    {
      if !w.works(OpenOriginal) || !w.works(OpenBackup) {
        return false;
      }
      backups := backups[id := TornBackup(world, abs, w)];
      if !w.works(CopyFile) || !w.works(SyncBackup) {
        return false;
      }
      backups := backups[id := Copy(world[abs].content)];
      return true;
    }

    /** Stages a temporary file in the directory of `abs` and renames it into place. */
    method ReplaceFile(abs: Path, content: string, mode: nat, owner: Option<(nat, nat)>, w: Weather)
      returns (error: Option<FsError>)
      requires abs != [] && Valid() && IsDir(world, Parent(abs))
      modifies this`world
      ensures Valid()
      ensures error.None? <==> Replaces(old(world), abs, w)
      ensures error.None? ==> world == old(world)[abs := File(content, StagedMeta(mode, owner, w))]
      ensures error.Some? ==> Kept(old(world), world) && (w.works(RemoveTemp) ==> world == old(world))
    {
      ghost var before := world;
      var tmp := Parent(abs) + [w.tmpName];
      var staged := StageTemp(tmp, content, mode, owner, w);
      if !staged {
        return Some(TempFailed);
      }
      // the rename onto a directory fails
      if !w.works(Rename) || IsDir(world, abs) {
        CleanUp(tmp, w, before);
        return Some(RenameFailed);
      }
      var node := world[tmp];
      FileKeepsShape(before, abs, node.content, node.meta);
      world := (world - {tmp})[abs := node];
      assert world == before[abs := node];
      return None;
    }

    function StagedMeta(mode: nat, owner: Option<(nat, nat)>, w: Weather): Meta {
      if owner.Some? && w.works(Chown) then Meta(mode, owner.value.0, owner.value.1) else Meta(mode, agent.uid, agent.gid)
    }

    /** Creates, writes and dresses the temporary file. Its random name is refused if it exists. */
    method StageTemp(tmp: Path, content: string, mode: nat, owner: Option<(nat, nat)>, w: Weather) returns (ok: bool)
      requires tmp != [] && Valid() && IsDir(world, Parent(tmp))
      modifies this`world
      ensures Valid()
      ensures ok <==>
        && w.works(CreateTemp) && tmp !in old(world)
        && w.works(WriteTemp) && w.works(SyncTemp) && w.works(CloseTemp) && w.works(ChmodTemp)
      ensures ok ==> world == old(world)[tmp := File(content, StagedMeta(mode, owner, w))]
      ensures !ok ==> Kept(old(world), world) && (w.works(RemoveTemp) ==> world == old(world))
    {
      if !w.works(CreateTemp) || tmp in world {
        return false;
      }
      ghost var before := world;
      FileKeepsShape(before, tmp, "", agent);
      world := world[tmp := File("", agent)];
      if !w.works(WriteTemp) || !w.works(SyncTemp) || !w.works(CloseTemp) || !w.works(ChmodTemp) {
        assert world - {tmp} == before;
        CleanUp(tmp, w, before);
        return false;
      }
      var meta := Meta(mode, agent.uid, agent.gid);
      if owner.Some? && w.works(Chown) {
        meta := Meta(mode, owner.value.0, owner.value.1);
      }
      FileKeepsShape(before, tmp, content, meta);
      world := world[tmp := File(content, meta)];
      assert world == before[tmp := File(content, meta)];
      return true;
    }

    method CleanUp(tmp: Path, w: Weather, ghost before: Tree)
      requires tmp !in before && tmp in world && world - {tmp} == before
      modifies this`world
      ensures Kept(before, world) && (if w.works(RemoveTemp) then world == before else world == old(world))
    {
      if w.works(RemoveTemp) {
        world := world - {tmp};
      } else {
        assert forall p :: p in before ==> p in world - {tmp};
      }
    }

    /** Creates or overwrites a file: directories, backup, temporary file, rename. */
    method AIWrite(invocation: string, abs: Path, content: string, reqMode: nat, w: Weather)
      returns (r: Result<BackupInfo, FsError>)
      requires abs != [] && Valid()
      modifies this`world, this`backups
      ensures Valid()
      ensures r.Success? ==> Wrote(old(world), world, abs, content, reqMode, agent, w.works(Chown))
      ensures invocation == "" ==> r == Failure(NoInvocation)
      ensures invocation != "" && |content| > MAX_WRITE_BYTES ==> r == Failure(TooLarge)
      ensures invocation == "" || |content| > MAX_WRITE_BYTES ==> world == old(world) && backups == old(backups)
      ensures Saved(old(world), world, backups, root, invocation, abs, w.works(FlushArchive))
      ensures r.Success? <==> Writes(old(world), invocation, abs, content, w)
      ensures r.Success? ==>
        var op := Write(abs, content, WrittenMeta(old(world), abs, reqMode, agent, w), agent);
        && CanDo(op, old(world)) && world == Effect(op, old(world))
        && r.value == Info(old(world), abs, IdFor(old(world), invocation, abs))
        && backups == Stored(old(world), abs, IdFor(old(world), invocation, abs), old(backups), w)
      ensures r.Failure? ==> Kept(old(world), world)
      ensures r.Failure? && w.works(RemoveTemp) ==> OnlyDirsAdded(old(world), world)
    {
      if invocation == "" {
        return Failure(NoInvocation);
      }
      if |content| > MAX_WRITE_BYTES {
        return Failure(TooLarge);
      }
      var parent := Parent(abs);
      if !w.works(MkdirParent) || !CanMkdirAll(world, parent) {
        return Failure(MkdirFailed);
      }
      MkdirKeepsShape(world, parent, agent);
      world := MkdirAll(world, parent, agent);
      Untouched(old(world), world, abs, agent, w);
      r := CaptureBackup(invocation, abs, w);
      if r.Failure? {
        return;
      }
      if !w.works(FreeSpace) {
        return Failure(NoSpace);
      }
      var info := r.value;
      var mode := NEW_FILE_MODE;
      if reqMode != 0 {
        mode := reqMode;
      } else if !info.originalAbsent {
        mode := info.mode;
      }
      var owner := if info.originalAbsent then None else Some((info.uid, info.gid));
      var error := ReplaceFile(abs, content, mode, owner, w);
      if error.Some? {
        return Failure(error.value);
      }
      EffectWrote(old(world), abs, content, reqMode, agent, w);
    }

    /** Find and replace, through AIWrite. */
    method AIEdit(
      invocation: string, abs: Path, oldString: string, newString: string, replaceAll: bool, w: Weather)
      returns (r: Result<BackupInfo, FsError>)
      requires abs != [] && Valid()
      modifies this`world, this`backups
      ensures Valid()
      ensures r.Success? ==>
        && abs in old(world) && old(world)[abs].File? && abs in world && world[abs].File? && oldString != ""
        && Substituted(old(world)[abs].content, world[abs].content, oldString, newString, replaceAll)
        && Wrote(old(world), world, abs, world[abs].content, 0, agent, w.works(Chown))
      ensures invocation != "" && oldString == "" ==> r == Failure(EmptyPattern)
      ensures invocation != "" && oldString != "" && oldString == newString ==> r == Failure(SameStrings)
      ensures invocation != "" && oldString != "" && oldString != newString && Readable(old(world), abs, w) ==>
        forall parts :: LeftmostCut(parts, oldString) && Join(parts, oldString) == old(world)[abs].content ==>
          && (|parts| == 1 ==> r == Failure(PatternNotFound))
          && (|parts| > 2 && !replaceAll ==> r == Failure(Ambiguous(|parts| - 1)))
      ensures Saved(old(world), world, backups, root, invocation, abs, w.works(FlushArchive))
      ensures !Edits(old(world), invocation, abs, oldString, newString, replaceAll, w) ==>
        r.Failure? && world == old(world) && backups == old(backups)
      ensures r.Success? <==>
        && Edits(old(world), invocation, abs, oldString, newString, replaceAll, w)
        && Writes(old(world), invocation, abs, Edited(old(world)[abs].content, oldString, newString, replaceAll), w)
      ensures r.Success? ==>
        var content := Edited(old(world)[abs].content, oldString, newString, replaceAll);
        var op := Write(abs, content, WrittenMeta(old(world), abs, 0, agent, w), agent);
        && CanDo(op, old(world)) && world == Effect(op, old(world))
        && r.value == Info(old(world), abs, IdFor(old(world), invocation, abs))
        && backups == Stored(old(world), abs, IdFor(old(world), invocation, abs), old(backups), w)
      ensures r.Failure? ==> Kept(old(world), world)
      ensures r.Failure? && w.works(RemoveTemp) ==> OnlyDirsAdded(old(world), world)
    {
      if invocation == "" {
        return Failure(NoInvocation);
      }
      if oldString == "" {
        return Failure(EmptyPattern);
      }
      if oldString == newString {
        return Failure(SameStrings);
      }
      if !w.works(ReadOriginal) || abs !in world || !world[abs].File? {
        return Failure(NotReadable);
      }
      var original := world[abs].content;
      var count := CountWord(original, oldString);
      CutsCounted(original, oldString);
      if count == 0 {
        return Failure(PatternNotFound);
      }
      if count > 1 && !replaceAll {
        return Failure(Ambiguous(count));
      }
      var updated;
      if replaceAll {
        updated := ReplaceWord(original, oldString, newString, count);
      } else {
        updated := ReplaceWord(original, oldString, newString, 1);
      }
      if |updated| > MAX_WRITE_BYTES {
        return Failure(TooLarge);
      }
      EditMeans(original, oldString, newString, replaceAll);
      r := AIWrite(invocation, abs, updated, 0, w);
    }

    /** Removes a file, a symlink or a directory tree, after its backup. */
    method AIDelete(invocation: string, abs: Path, recursive: bool, w: Weather)
      returns (r: Result<BackupInfo, FsError>)
      requires abs != [] && Valid()
      modifies this`world, this`backups
      ensures Valid()
      ensures r.Success? ==> Deleted(old(world), world, abs)
      ensures invocation == "" ==> r == Failure(NoInvocation)
      ensures invocation != "" && abs !in old(world) ==> r == Failure(NotFound)
      ensures invocation != "" && IsDir(old(world), abs) && !recursive ==> r == Failure(NeedsRecursive)
      ensures invocation == "" || abs !in old(world) || (IsDir(old(world), abs) && !recursive) ==>
        world == old(world) && backups == old(backups)
      ensures IsDir(old(world), abs) && (w.size.total > 1024 * 1024 * 1024 || w.size.files > 50_000) ==>
        r.Failure? && world == old(world) && backups == old(backups)
      ensures Saved(old(world), world, backups, root, invocation, abs, w.works(FlushArchive))
      ensures r.Success? <==>
        && invocation != "" && abs in old(world) && (IsDir(old(world), abs) ==> recursive)
        && Captures(old(world), abs, w) && w.works(RemoveTarget)
      ensures r.Success? ==>
        && CanDo(Delete(abs), old(world)) && world == Effect(Delete(abs), old(world))
        && r.value == Info(old(world), abs, IdFor(old(world), invocation, abs))
        && backups == Stored(old(world), abs, IdFor(old(world), invocation, abs), old(backups), w)
      // a tree may be removed in part, and then no recipe is returned
      ensures r.Failure? ==>
        if invocation != "" && IsDir(old(world), abs) && recursive && Captures(old(world), abs, w) then
          && world == Partly(old(world), abs, w.gone)
          && backups == Stored(old(world), abs, IdFor(old(world), invocation, abs), old(backups), w)
        else world == old(world)
    {
      if invocation == "" {
        return Failure(NoInvocation);
      }
      if abs !in world {
        return Failure(NotFound);
      }
      if world[abs].Dir? && !recursive {
        return Failure(NeedsRecursive);
      }
      r := CaptureBackup(invocation, abs, w);
      if r.Failure? {
        return;
      }
      if world[abs].Dir? {
        if !w.works(RemoveTarget) {
          PartlyKeepsShape(world, abs, w.gone);
          world := Partly(world, abs, w.gone);
          return Failure(RemoveFailed);
        }
        EffectKeepsShape(Delete(abs), world);
        world := Without(world, abs);
      } else {
        if !w.works(RemoveTarget) {
          return Failure(RemoveFailed);
        }
        OnlyItself(world, abs);
        EffectKeepsShape(Delete(abs), world);
        world := world - {abs};
      }
    }
  }

  predicate Readable(t: Tree, abs: Path, w: Weather) {
    w.works(ReadOriginal) && abs in t && t[abs].File?
  }

  /** An edit finds what it is to replace, and only once unless it may replace all. */
  predicate Edits(
    t: Tree, invocation: string, abs: Path, oldString: string, newString: string, replaceAll: bool, w: Weather)
  {
    && invocation != "" && oldString != "" && oldString != newString
    && Readable(t, abs, w)
    && var count := CountWord(t[abs].content, oldString);
       count == 1 || (count > 1 && replaceAll)
  }

  function Edited(original: string, oldString: string, newString: string, replaceAll: bool): string
    requires oldString != ""
  {
    ReplaceWord(original, oldString, newString, if replaceAll then CountWord(original, oldString) else 1)
  }

  /** `updated` is `original` with the word `w`, at every place or at its only one, replaced by `v`. */
  ghost predicate Substituted(original: string, updated: string, w: string, v: string, all: bool)
    requires w != ""
  {
    exists parts ::
      && LeftmostCut(parts, w) && |parts| > 1 && (all || |parts| == 2)
      && original == Join(parts, w) && updated == Join(parts, v)
  }

  lemma {:induction false} EditMeans(original: string, w: string, v: string, all: bool)
    requires w != "" && (CountWord(original, w) == 1 || (CountWord(original, w) > 1 && all))
    ensures Substituted(original, Edited(original, w, v, all), w, v, all)
  {
    var parts := CutExists(original, w);
    CutReplaced(parts, w, v);
  }

  lemma {:induction false} CutsCounted(original: string, w: string)
    requires w != ""
    ensures forall parts :: LeftmostCut(parts, w) && Join(parts, w) == original ==> CountWord(original, w) == |parts| - 1
  {
    forall parts | LeftmostCut(parts, w) && Join(parts, w) == original
      ensures CountWord(original, w) == |parts| - 1
    {
      CutReplaced(parts, w, w);
    }
  }

  /** Making the directories above the target leaves the target and the place of the temporary file. */
  lemma {:induction false} Untouched(t: Tree, made: Tree, abs: Path, agent: Meta, w: Weather)
    requires abs != [] && made == MkdirAll(t, Parent(abs), agent)
    ensures OnlyDirsAdded(t, made)
    ensures abs in made <==> abs in t
    ensures Captures(made, abs, w) <==> Captures(t, abs, w)
    ensures Replaces(made, abs, w) <==> Replaces(t, abs, w)
  {
    var tmp := Parent(abs) + [w.tmpName];
    assert forall q :: q in Missing(t, Parent(abs)) ==> |q| < |abs| == |tmp|;
    assert abs !in Missing(t, Parent(abs)) && tmp !in Missing(t, Parent(abs));
  }

  lemma {:induction false} FileKeepsShape(t: Tree, p: Path, content: string, meta: Meta)
    requires WellFormed(t) && p != [] && IsDir(t, Parent(p)) && !IsDir(t, p)
    ensures WellFormed(t[p := File(content, meta)])
  {
  }

  /** A tree removal that stops on the way: a node is gone when it was reached and nothing is left
      below it. */
  function Partly(t: Tree, p: Path, gone: set<Path>): Tree {
    map q | q in t && !(p <= q && forall r :: r in t && q <= r ==> r in gone) :: t[q]
  }

  lemma {:induction false} PartlyKeepsShape(t: Tree, p: Path, gone: set<Path>)
    requires WellFormed(t) && p != []
    ensures WellFormed(Partly(t, p, gone))
  {
    forall q | q in Partly(t, p, gone) && q != []
      ensures IsDir(Partly(t, p, gone), Parent(q))
    {
      assert Parent(q) <= q;
      assert forall r :: r in t && q <= r ==> Parent(q) <= r;
    }
  }

  /** A deleted tree comes back exactly when its archive was flushed, or else still holds every node. */
  lemma {:induction false} DeletedTreeBack(t: Tree, abs: Path, id: BackupId, backups: Backups, w: Weather)
    requires WellFormed(t) && abs != [] && IsDir(t, abs) && Captures(t, abs, w)
    ensures Back(t, RunRecipe(Without(t, abs), Stored(t, abs, id, backups, w), RecipeFor(t, abs, id)))
       <==> w.works(FlushArchive) || HoldsAll(TornBackup(t, abs, w).entries, RelativeTree(t, abs))
  {
    var stored := Stored(t, abs, id, backups, w);
    TornArchive(t, abs, stored, id, stored[id].entries);
  }
}
