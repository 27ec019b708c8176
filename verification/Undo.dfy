/** Undoing AI file operations: each operation returns a recipe, and running the recipes of a run in
    reverse order brings the files back. */
module Undo {
  import opened Wrappers
  import opened FileTree

  // ---------- the operations, as carried out ----------

  /** A write (or edit) that has put `content` at `path` with mode and owner `meta`, making missing
      directories with owner `maker`; or a delete. */
  datatype Op =
    | Write(path: Path, content: string, meta: Meta, maker: Meta)
    | Delete(path: Path)

  /** When the operation succeeds. */
  predicate CanDo(op: Op, w: Tree) {
    && op.path != []
    && match op
       case Write(p, _, _, _) => CanMkdirAll(w, Parent(p)) && !IsDir(w, p)
       case Delete(p) => p in w
  }

  function Effect(op: Op, w: Tree): Tree
    requires CanDo(op, w)
  {
    match op
    case Write(p, content, meta, maker) => MkdirAll(w, Parent(p), maker)[p := File(content, meta)]
    case Delete(p) => Without(w, p)
  }

  /** What captureBackup stores for the target, if it stores anything. */
  function Snapshot(w: Tree, p: Path): Option<Backup>
    requires p != []
  {
    if p !in w || w[p].Link? then None
    else if w[p].File? then Some(Copy(w[p].content))
    else Some(Archive(RelativeTree(w, p)))
  }

  /** The recipe that captureBackup returns. */
  function RecipeFor(w: Tree, p: Path, id: BackupId): Recipe
    requires p != []
  {
    if p !in w then RmF(p)
    else
      match w[p]
      case Link(t, _, _) => LnSfn(t, p)
      case Dir(_) => MkdirAndTarX(Parent(p), id)
      case File(_, m) => Install(m.mode, m.uid, m.gid, id, p)
  }

  /** The directories that a write has to make. */
  function Makes(op: Op, w: Tree): set<Path>
    requires op.path != []
  {
    if op.Write? then Missing(w, Parent(op.path)) else {}
  }

  /** What a delete takes away that is not a directory. */
  function Clobbers(op: Op, w: Tree): set<Path> {
    if op.Write? then {} else set q | q in w && op.path <= q && !w[q].Dir?
  }

  // ---------- one undo step ----------

  /** Equal, except that a restored symlink belongs to whoever restored it. */
  predicate Alike(a: Node, b: Node) {
    a == b || (a.Link? && b.Link? && a.target == b.target)
  }

  /** `now` has everything that `w` has, and nothing else but directories. */
  ghost predicate Back(w: Tree, now: Tree) {
    && (forall p :: p in w ==> p in now && Alike(now[p], w[p]))
    && (forall p :: p in now && p !in w ==> now[p].Dir?)
  }

  lemma {:induction false} EffectKeepsShape(op: Op, w: Tree)
    requires WellFormed(w) && CanDo(op, w)
    ensures WellFormed(Effect(op, w))
  {
    match op
    case Write(p, content, meta, maker) => MkdirKeepsShape(w, Parent(p), maker);
    case Delete(p) =>
      forall q | q in Without(w, p) && q != []
        ensures IsDir(Without(w, p), Parent(q))
      {
        assert Parent(q) <= q;
      }
  }

  lemma {:induction false} MkdirKeepsShape(w: Tree, d: Path, maker: Meta)
    requires WellFormed(w) && CanMkdirAll(w, d)
    ensures WellFormed(MkdirAll(w, d, maker)) && IsDir(MkdirAll(w, d, maker), d)
  {
    var w1 := MkdirAll(w, d, maker);
    assert d[..|d|] == d;
    forall q | q in w1 && q != []
      ensures IsDir(w1, Parent(q))
    {
      if q !in w {
        var k :| 0 <= k <= |d| && q == d[..k];
        assert Parent(q) == d[..k - 1];
      }
    }
  }

  /** What keeps the recipe of a delete from bringing everything back: a directory in the place of the
      file or symlink, and for a tree, one in the place of some file or symlink that is not empty. */
  predicate Blocked(op: Op, w: Tree, now: Tree) {
    exists q :: q in Clobbers(op, w) && q in now && (IsDir(w, op.path) ==> Occupied(now, q))
  }

  /** After an operation and its undo, with directories left over from elsewhere in between, the tree
      is back exactly when the recipe is not blocked. */
  lemma {:induction false} UndoStep(op: Op, w: Tree, now: Tree, backups: Backups, id: BackupId)
    requires WellFormed(w) && CanDo(op, w)
    requires Back(Effect(op, w), now)
    requires Snapshot(w, op.path).Some? ==> id in backups && backups[id] == Snapshot(w, op.path).value
    ensures Back(w, RunRecipe(now, backups, RecipeFor(w, op.path, id))) <==> !Blocked(op, w, now)
    ensures !Blocked(op, w, now) ==> RunRecipe(now, backups, RecipeFor(w, op.path, id)).Keys <= now.Keys + w.Keys
  {
    if op.Write? {
      UndoWrite(op, w, now, backups, id);
    } else if w[op.path].Dir? {
      UndoDeleteDir(op, w, now, backups, id);
    } else {
      UndoDeleteNode(op, w, now, backups, id);
    }
  }

  lemma {:induction false} UndoWrite(op: Op, w: Tree, now: Tree, backups: Backups, id: BackupId)
    requires WellFormed(w) && CanDo(op, w) && op.Write?
    requires Back(Effect(op, w), now)
    requires Snapshot(w, op.path).Some? ==> id in backups && backups[id] == Snapshot(w, op.path).value
    ensures var r := RunRecipe(now, backups, RecipeFor(w, op.path, id));
      Back(w, r) && r.Keys <= now.Keys + w.Keys
  {
    RecipeUnwrites(op, w, now, backups, id);
    UnwrittenBack(op, w, now);
  }

  /** A node as a recipe restores it: a symlink is owned by root. */
  function Restored(n: Node): Node {
    if n.Link? then Link(n.target, ROOT_UID, ROOT_GID) else n
  }

  /** The tree with `p` as it was. */
  function Unwritten(w: Tree, now: Tree, p: Path): Tree {
    if p !in w then now - {p} else now[p := Restored(w[p])]
  }

  lemma {:induction false} RecipeUnwrites(op: Op, w: Tree, now: Tree, backups: Backups, id: BackupId)
    requires WellFormed(w) && CanDo(op, w) && op.Write?
    requires Back(Effect(op, w), now)
    requires Snapshot(w, op.path).Some? ==> id in backups && backups[id] == Snapshot(w, op.path).value
    ensures RunRecipe(now, backups, RecipeFor(w, op.path, id)) == Unwritten(w, now, op.path)
  {
    var (p, w1) := (op.path, Effect(op, w));
    assert p in w1 && w1[p].File?;
    assert now[p] == w1[p];
    if p in w {
      assert IsDir(w, Parent(p)) && IsDir(w1, Parent(p));
    }
  }

  lemma {:induction false} UnwrittenBack(op: Op, w: Tree, now: Tree)
    requires CanDo(op, w) && op.Write? && Back(Effect(op, w), now)
    ensures Back(w, Unwritten(w, now, op.path)) && Unwritten(w, now, op.path).Keys <= now.Keys + w.Keys
  {
    var w1 := Effect(op, w);
    assert forall q :: q in w && q != op.path ==> q in w1 && w1[q] == w[q];
  }

  lemma {:induction false} UndoDeleteNode(op: Op, w: Tree, now: Tree, backups: Backups, id: BackupId)
    requires WellFormed(w) && CanDo(op, w) && op.Delete? && !w[op.path].Dir?
    requires Back(Effect(op, w), now)
    requires Snapshot(w, op.path).Some? ==> id in backups && backups[id] == Snapshot(w, op.path).value
    ensures var r := RunRecipe(now, backups, RecipeFor(w, op.path, id));
      && (Back(w, r) <==> op.path !in now)
      && (op.path !in now ==> r.Keys <= now.Keys + w.Keys)
    ensures Clobbers(op, w) == {op.path}
  {
    var p := op.path;
    OnlyItself(w, p);
    var name := InnerName(w[p], p);
    assert RunRecipe(now, backups, RecipeFor(w, p, id)) == Place(now, p, name, Restored(w[p]));
    assert IsDir(w, Parent(p)) && Parent(p) in Effect(op, w);
    PlacedBack(w, p, now, name);
  }

  /** The name under which a node ends up when a directory stands in its place. */
  function InnerName(n: Node, p: Path): string
    requires p != []
  {
    if n.Link? then LastComponent(n.target) else Base(p)
  }

  lemma {:induction false} OnlyItself(w: Tree, p: Path)
    requires WellFormed(w) && p in w && !w[p].Dir?
    ensures Without(w, p) == w - {p}
    ensures Clobbers(Delete(p), w) == {p}
  {
    forall q | q in w && p <= q
      ensures q == p
    {
      if q != p {
        NothingBelow(w, p, q);
      }
    }
  }

  lemma {:induction false} PlacedBack(w: Tree, p: Path, now: Tree, name: string)
    requires p != [] && p in w && !w[p].Dir? && Back(w - {p}, now) && IsDir(now, Parent(p))
    ensures var r := Place(now, p, name, Restored(w[p]));
      && (Back(w, r) <==> p !in now)
      && (p !in now ==> r.Keys <= now.Keys + w.Keys)
  {
    assert p !in w - {p};
    assert p in now ==> IsDir(now, p);
    assert forall q :: q in w && q != p ==> q in w - {p};
  }

  lemma {:induction false} NothingBelow(w: Tree, p: Path, q: Path)
    requires WellFormed(w) && p in w && !w[p].Dir?
    requires p <= q && p != q
    ensures q !in w
    decreases |q|
  {
    if q in w {
      assert IsDir(w, Parent(q));
      if Parent(q) != p {
        assert p <= Parent(q);
        NothingBelow(w, p, Parent(q));
      }
    }
  }

  lemma {:induction false} UndoDeleteDir(op: Op, w: Tree, now: Tree, backups: Backups, id: BackupId)
    requires WellFormed(w) && CanDo(op, w) && op.Delete? && w[op.path].Dir?
    requires Back(Effect(op, w), now)
    requires Snapshot(w, op.path).Some? ==> id in backups && backups[id] == Snapshot(w, op.path).value
    ensures var r := RunRecipe(now, backups, RecipeFor(w, op.path, id));
      && (Back(w, r) <==> !Blocked(op, w, now))
      && r.Keys <= now.Keys + w.Keys
  {
    TarRuns(w, op.path, now, backups, id);
    TarBringsBack(w, op.path, now);
  }

  /** Over directories that are all there, the recipe of a tree is an extraction. */
  lemma {:induction false} TarExtracts(u: Tree, backups: Backups, d: Path, id: BackupId, entries: Tree)
    requires forall k :: 0 <= k <= |d| ==> IsDir(u, d[..k])
    requires id in backups && backups[id] == Archive(entries)
    ensures RunRecipe(u, backups, MkdirAndTarX(d, id)) == Extract(u, d, entries)
  {
    assert Missing(u, d) == {};
    assert MkdirAll(u, d, Meta(NEW_DIR_MODE, ROOT_UID, ROOT_GID)) == u;
  }

  lemma {:induction false} TarRuns(w: Tree, p: Path, now: Tree, backups: Backups, id: BackupId)
    requires WellFormed(w) && p != [] && p in w && Back(Without(w, p), now)
    requires id in backups && backups[id] == Archive(RelativeTree(w, p))
    ensures RunRecipe(now, backups, MkdirAndTarX(Parent(p), id)) == Extract(now, Parent(p), RelativeTree(w, p))
  {
    ParentStays(w, p, now);
  }

  lemma {:induction false} TarBringsBack(w: Tree, p: Path, now: Tree)
    requires p != [] && IsDir(w, p) && Back(Without(w, p), now)
    ensures var r := Extract(now, Parent(p), RelativeTree(w, p));
      && (Back(w, r) <==> !Blocked(Delete(p), w, now))
      && r.Keys <= now.Keys + w.Keys
  {
    ArchiveHoldsTree(w, p);
    ExtractMerges(w, p, now);
    MergedBack(w, p, now, Extract(now, Parent(p), RelativeTree(w, p)));
  }

  lemma {:induction false} ParentStays(w: Tree, p: Path, now: Tree)
    requires WellFormed(w) && p != [] && p in w
    requires Back(Without(w, p), now)
    ensures CanMkdirAll(now, Parent(p)) && MkdirAll(now, Parent(p), Meta(NEW_DIR_MODE, ROOT_UID, ROOT_GID)) == now
  {
    var d := Parent(p);
    forall k | 0 <= k <= |d|
      ensures IsDir(now, d[..k])
    {
      AncestorStays(w, p, k);
      assert d[..k] == p[..k] && p[..k] in Without(w, p);
    }
    assert Missing(now, d) == {};
  }

  /** `r` is `now` with the tree at `p` put over it, except what resists. */
  ghost predicate Merged(w: Tree, p: Path, now: Tree, r: Tree) {
    forall q ::
      && (q in r <==> q in now || q in Below(w, p))
      && (q in r ==> r[q] == if q in Below(w, p) && !Resists(now, q, w[q]) then w[q] else now[q])
  }

  lemma {:induction false} ExtractMerges(w: Tree, p: Path, now: Tree)
    requires p != [] && Under(Parent(p), RelativeTree(w, p)) == Below(w, p)
    ensures Merged(w, p, now, Extract(now, Parent(p), RelativeTree(w, p)))
  {
  }

  /** Extracting the archive of a tree over leftover directories. */
  lemma {:induction false} MergedBack(w: Tree, p: Path, now: Tree, r: Tree)
    requires IsDir(w, p) && Back(Without(w, p), now) && Merged(w, p, now, r)
    ensures Back(w, r) <==> !Blocked(Delete(p), w, now)
    ensures r.Keys <= now.Keys + w.Keys
  {
    if Blocked(Delete(p), w, now) {
      var q :| q in Clobbers(Delete(p), w) && q in now && Occupied(now, q);
      assert q in Below(w, p) && q !in Without(w, p) && IsDir(now, q);
      assert r[q] == now[q];
    } else {
      forall q | q in w
        ensures q in r && Alike(r[q], w[q])
      {
        assert q in Below(w, p) || q in Without(w, p);
        assert q in Below(w, p) && !w[q].Dir? ==> q in Clobbers(Delete(p), w);
      }
    }
  }

  /** Deleting `p` leaves the directories above it. */
  lemma {:induction false} AncestorStays(w: Tree, p: Path, k: nat)
    requires WellFormed(w) && p in w && k < |p|
    ensures IsDir(w, p[..k]) && !(p <= p[..k])
    decreases |p|
  {
    assert IsDir(w, Parent(p));
    if k < |p| - 1 {
      AncestorStays(w, Parent(p), k);
      assert Parent(p)[..k] == p[..k];
    }
  }

  // ---------- runs ----------

  /** Operations in order, each with the backup it may write. */
  type Ops = seq<(Op, BackupId)>

  ghost predicate CanRun(w: Tree, ops: Ops)
    decreases |ops|
  {
    ops == [] || (CanDo(ops[0].0, w) && CanRun(Effect(ops[0].0, w), ops[1..]))
  }

  function RunAll(w: Tree, ops: Ops): Tree
    requires CanRun(w, ops)
    decreases |ops|
  {
    if ops == [] then w else RunAll(Effect(ops[0].0, w), ops[1..])
  }

  /** The backups after a run that starts with `backups`. */
  function BackupsAfter(w: Tree, backups: Backups, ops: Ops): Backups
    requires CanRun(w, ops)
    decreases |ops|
  {
    if ops == [] then backups
    else
      var (op, id) := ops[0];
      var snap := Snapshot(w, op.path);
      BackupsAfter(Effect(op, w), if snap.Some? then backups[id := snap.value] else backups, ops[1..])
  }

  function Recipes(w: Tree, ops: Ops): (rs: seq<Recipe>)
    requires CanRun(w, ops)
    ensures |rs| == |ops|
    decreases |ops|
  {
    if ops == [] then []
    else [RecipeFor(w, ops[0].0.path, ops[0].1)] + Recipes(Effect(ops[0].0, w), ops[1..])
  }

  /** Runs recipes in reverse order. */
  function UndoAll(now: Tree, backups: Backups, rs: seq<Recipe>): Tree
    decreases |rs|
  {
    if rs == [] then now else RunRecipe(UndoAll(now, backups, rs[1..]), backups, rs[0])
  }

  /** The directories that the writes of a run make. */
  function MadeBy(w: Tree, ops: Ops): set<Path>
    requires CanRun(w, ops)
    decreases |ops|
  {
    if ops == [] then {} else Makes(ops[0].0, w) + MadeBy(Effect(ops[0].0, w), ops[1..])
  }

  /** No write makes a directory where an earlier delete took away a file or a symlink. A caller can
      see this before each write: no ancestor of its target is such a place. */
  ghost predicate NoClash(w: Tree, ops: Ops)
    requires CanRun(w, ops)
    decreases |ops|
  {
    ops == [] ||
    (var w1 := Effect(ops[0].0, w);
     Clobbers(ops[0].0, w) !! MadeBy(w1, ops[1..]) && NoClash(w1, ops[1..]))
  }

  /** The places where the operations of a run store backups. */
  function StoredIds(w: Tree, ops: Ops): set<BackupId>
    requires CanRun(w, ops)
    decreases |ops|
  {
    if ops == [] then {}
    else (if Snapshot(w, ops[0].0.path).Some? then {ops[0].1} else {}) + StoredIds(Effect(ops[0].0, w), ops[1..])
  }

  /** No operation stores its backup over that of an earlier one. */
  ghost predicate KeepsBackups(w: Tree, ops: Ops)
    requires CanRun(w, ops)
    decreases |ops|
  {
    ops == [] ||
    (var w1 := Effect(ops[0].0, w);
     (Snapshot(w, ops[0].0.path).Some? ==> ops[0].1 !in StoredIds(w1, ops[1..])) && KeepsBackups(w1, ops[1..]))
  }

  lemma {:induction false} BackupStays(w: Tree, backups: Backups, ops: Ops, id: BackupId)
    requires CanRun(w, ops) && id in backups && id !in StoredIds(w, ops)
    ensures id in BackupsAfter(w, backups, ops) && BackupsAfter(w, backups, ops)[id] == backups[id]
    decreases |ops|
  {
    if ops != [] {
      var (op, id0) := ops[0];
      var snap := Snapshot(w, op.path);
      var backups1 := if snap.Some? then backups[id0 := snap.value] else backups;
      BackupStays(Effect(op, w), backups1, ops[1..], id);
    }
  }

  /** Any run of successful operations, on files, broken symlinks, directory trees and absent paths:
      running their recipes in reverse order brings back every node, with its content, mode and owner
      (a symlink with its target). What remains besides is directories that the writes made. */
  lemma {:induction false} UndoRestores(w: Tree, backups: Backups, ops: Ops)
    requires WellFormed(w) && CanRun(w, ops)
    requires KeepsBackups(w, ops) && NoClash(w, ops)
    ensures var undone := UndoAll(RunAll(w, ops), BackupsAfter(w, backups, ops), Recipes(w, ops));
      Back(w, undone) && undone.Keys <= w.Keys + MadeBy(w, ops)
    decreases |ops|
  {
    if ops != [] {
      var (op, id) := ops[0];
      var w1 := Effect(op, w);
      var snap := Snapshot(w, op.path);
      var backups1 := if snap.Some? then backups[id := snap.value] else backups;
      EffectKeepsShape(op, w);
      UndoRestores(w1, backups1, ops[1..]);
      var rs := Recipes(w, ops);
      assert rs[1..] == Recipes(w1, ops[1..]);
      var after := BackupsAfter(w, backups, ops);
      if snap.Some? {
        BackupStays(w1, backups1, ops[1..], id);
      }
      var now := UndoAll(RunAll(w, ops), after, rs[1..]);
      LeftoversAllowed(op, w, now, MadeBy(w1, ops[1..]));
      UndoStep(op, w, now, after, id);
    }
  }

  lemma {:induction false} LeftoversAllowed(op: Op, w: Tree, now: Tree, made: set<Path>)
    requires CanDo(op, w) && now.Keys <= Effect(op, w).Keys + made && Clobbers(op, w) !! made
    ensures forall q :: q in Clobbers(op, w) ==> q !in now
    ensures now.Keys + w.Keys <= w.Keys + (Makes(op, w) + made) + {op.path}
  {
  }

  // ---------- where it stops ----------

  /** The clash is real: delete the file /x, then write /x/y. Undoing the write leaves the directory
      /x, and `install` puts the file's content inside it: the file is not back. */
  lemma {:induction false} ClashLosesTheFile(m: Meta, id0: BackupId, id1: BackupId)
    ensures var (w, ops) := ClashRun(m, id0, id1);
      && WellFormed(w) && CanRun(w, ops) && !NoClash(w, ops)
      && var undone := UndoAll(RunAll(w, ops), BackupsAfter(w, map[], ops), Recipes(w, ops));
         IsDir(undone, ["x"]) && !Back(w, undone)
  {
    var (w, ops) := ClashRun(m, id0, id1);
    var (x, xy) := (["x"], ["x", "y"]);
    var (op0, op1) := (ops[0].0, ops[1].0);
    assert Parent(x) == [] && Parent(xy) == x;
    var w1 := Effect(op0, w);
    assert w1 == map[[] := Dir(m)];
    ClashMakes(w1, op1);
    var w2 := Effect(op1, w1);
    assert ops[1..] == [(op1, id1)] && ops[1..][1..] == [];
    assert RunAll(w, ops) == RunAll(w1, ops[1..]) == RunAll(w2, []) == w2;
    var rs := Recipes(w, ops);
    assert rs[1..] == Recipes(w1, ops[1..]) && rs[1..][0] == RmF(xy) && rs[1..][1..] == [];
    var backups := BackupsAfter(w, map[], ops);
    var u1 := UndoAll(w2, backups, rs[1..]);
    assert UndoAll(w2, backups, rs[1..][1..]) == w2;
    assert u1 == RunRecipe(w2, backups, RmF(xy)) == w2 - {xy};
    assert IsDir(u1, x);
    assert rs[0] == Install(m.mode, m.uid, m.gid, id0, x);
    assert x in Clobbers(op0, w) && x in Makes(op1, w1) && x in MadeBy(w1, ops[1..]);
  }

  function ClashRun(m: Meta, id0: BackupId, id1: BackupId): (Tree, Ops) {
    (map[[] := Dir(m), ["x"] := File("old", m)],
     [(Delete(["x"]), id0), (Write(["x", "y"], "new", m, m), id1)])
  }

  lemma {:induction false} ClashMakes(w1: Tree, op1: Op)
    requires op1.Write? && op1.path == ["x", "y"] && w1.Keys == {[]} && IsDir(w1, [])
    ensures CanDo(op1, w1) && ["x"] in Makes(op1, w1)
    ensures Effect(op1, w1).Keys == {[], ["x"], ["x", "y"]} && IsDir(Effect(op1, w1), ["x"])
  {
    var x := ["x"];
    assert Parent(op1.path) == x && x[..0] == [] && x[..1] == x;
    assert Missing(w1, x) == {x};
  }

  /** Two writes of one file that share a backup: the second one stores over what the first one stored,
      and undoing both gives the file the content between them. */
  lemma {:induction false} SharedBackup(w: Tree, backups: Backups, p: Path, b: string, c: string, m: Meta, id: BackupId)
    requires WellFormed(w) && p != [] && p in w && w[p].File?
    ensures var ops: Ops := [(Write(p, b, m, m), id), (Write(p, c, m, m), id)];
      && CanRun(w, ops) && !KeepsBackups(w, ops)
      && var undone := UndoAll(RunAll(w, ops), BackupsAfter(w, backups, ops), Recipes(w, ops));
         undone == w[p := File(b, w[p].meta)] && (Back(w, undone) <==> w[p].content == b)
  {
    var (op1, op2) := (Write(p, b, m, m), Write(p, c, m, m));
    var (w1, backups1) := (w[p := File(b, m)], backups[id := Copy(w[p].content)]);
    WriteOver(w, p, b, m);
    EffectKeepsShape(op1, w);
    LastWrite(w1, backups1, p, c, m, id);
    FirstOfRun(w, backups, op1, id, [(op2, id)]);
    assert [(op1, id)] + [(op2, id)] == [(op1, id), (op2, id)];
    var (after, w2) := (backups1[id := Copy(b)], w1[p := File(c, m)]);
    var (r1, r2) := (RecipeFor(w, p, id), RecipeFor(w1, p, id));
    assert [r1] + [r2] == [r1, r2];
    UndoTwo(w2, after, r1, r2);
    WriteUndone(w1, after, p, c, m, id);
    assert w1[p := File(b, m)] == w1;
    WriteUndone(w, after, p, b, m, id);
    OtherContent(w, p, b);
  }

  lemma {:induction false} UndoTwo(now: Tree, backups: Backups, r1: Recipe, r2: Recipe)
    ensures UndoAll(now, backups, [r1, r2]) == RunRecipe(RunRecipe(now, backups, r2), backups, r1)
  {
    assert [r1, r2][1..] == [r2] && [r2][1..] == [];
    assert UndoAll(now, backups, []) == now;
  }

  lemma {:induction false} OtherContent(w: Tree, p: Path, b: string)
    requires p in w && w[p].File?
    ensures Back(w, w[p := File(b, w[p].meta)]) <==> w[p].content == b
  {
    if w[p].content == b {
      assert w[p := File(b, w[p].meta)] == w;
    } else {
      assert w[p := File(b, w[p].meta)][p].content == b;
    }
  }

  lemma {:induction false} WriteOver(w: Tree, p: Path, b: string, m: Meta)
    requires WellFormed(w) && p != [] && p in w && w[p].File?
    ensures CanDo(Write(p, b, m, m), w) && Effect(Write(p, b, m, m), w) == w[p := File(b, m)]
  {
    AncestorsAre(w, p);
  }

  /** A run is its first operation and the rest. */
  lemma {:induction false} FirstOfRun(w: Tree, backups: Backups, op: Op, id: BackupId, rest: Ops)
    requires CanDo(op, w) && CanRun(Effect(op, w), rest)
    ensures var ops := [(op, id)] + rest;
      var (w1, snap) := (Effect(op, w), Snapshot(w, op.path));
      && CanRun(w, ops)
      && RunAll(w, ops) == RunAll(w1, rest)
      && BackupsAfter(w, backups, ops) == BackupsAfter(w1, if snap.Some? then backups[id := snap.value] else backups, rest)
      && Recipes(w, ops) == [RecipeFor(w, op.path, id)] + Recipes(w1, rest)
      && StoredIds(w, ops) == (if snap.Some? then {id} else {}) + StoredIds(w1, rest)
      && (KeepsBackups(w, ops) <==> (snap.Some? ==> id !in StoredIds(w1, rest)) && KeepsBackups(w1, rest))
  {
    assert ([(op, id)] + rest)[1..] == rest;
  }

  lemma {:induction false} LastWrite(w: Tree, backups: Backups, p: Path, c: string, m: Meta, id: BackupId)
    requires WellFormed(w) && p != [] && p in w && w[p].File?
    ensures var ops: Ops := [(Write(p, c, m, m), id)];
      && CanRun(w, ops)
      && RunAll(w, ops) == w[p := File(c, m)]
      && BackupsAfter(w, backups, ops) == backups[id := Copy(w[p].content)]
      && Recipes(w, ops) == [RecipeFor(w, p, id)]
      && StoredIds(w, ops) == {id}
  {
    WriteOver(w, p, c, m);
    FirstOfRun(w, backups, Write(p, c, m, m), id, []);
    assert [(Write(p, c, m, m), id)] + [] == [(Write(p, c, m, m), id)];
  }

  /** The recipe of a write over a file puts back what its backup holds. */
  lemma {:induction false} WriteUndone(w: Tree, backups: Backups, p: Path, c: string, m: Meta, id: BackupId)
    requires WellFormed(w) && p != [] && p in w && w[p].File?
    requires id in backups && backups[id].Copy?
    ensures RunRecipe(w[p := File(c, m)], backups, RecipeFor(w, p, id)) == w[p := File(backups[id].content, w[p].meta)]
  {
    AncestorsAre(w, p);
  }

  /** Above a node there are directories, none of which a write has to make. */
  lemma {:induction false} AncestorsAre(w: Tree, p: Path)
    requires WellFormed(w) && p in w && p != []
    ensures IsDir(w, Parent(p)) && CanMkdirAll(w, Parent(p))
    ensures Missing(w, Parent(p)) == {} && forall meta :: MkdirAll(w, Parent(p), meta) == w
  {
    var d := Parent(p);
    forall k | 0 <= k <= |d|
      ensures IsDir(w, d[..k])
    {
      AncestorStays(w, p, k);
      assert d[..k] == p[..k];
    }
    assert Missing(w, d) == {};
  }

  lemma {:induction false} AncestorsStay(w: Tree, p: Path)
    requires WellFormed(w) && p in w && p != []
    ensures forall k :: 0 <= k <= |Parent(p)| ==> IsDir(Without(w, p), Parent(p)[..k])
  {
    forall k | 0 <= k <= |Parent(p)|
      ensures IsDir(Without(w, p), Parent(p)[..k])
    {
      AncestorStays(w, p, k);
      assert Parent(p)[..k] == p[..k];
    }
  }

  lemma {:induction false} UnderAt(d: Path, entries: Tree, e: Path)
    ensures d + e in Under(d, entries) <==> e in entries
    ensures e in entries ==> Under(d, entries)[d + e] == entries[e]
  {
    assert (d + e)[|d|..] == e;
  }

  ghost predicate HoldsAll(entries: Tree, all: Tree) {
    forall e :: e in all ==> e in entries && Alike(entries[e], all[e])
  }

  lemma {:induction false} UnderHolds(d: Path, entries: Tree, all: Tree)
    ensures HoldsAll(Under(d, entries), Under(d, all)) <==> HoldsAll(entries, all)
  {
    if HoldsAll(Under(d, entries), Under(d, all)) {
      forall e | e in all
        ensures e in entries && Alike(entries[e], all[e])
      {
        UnderAt(d, entries, e);
        UnderAt(d, all, e);
      }
    }
    if HoldsAll(entries, all) {
      forall q | q in Under(d, all)
        ensures q in Under(d, entries) && Alike(Under(d, entries)[q], Under(d, all)[q])
      {
        assert d + q[|d|..] == q;
        UnderAt(d, entries, q[|d|..]);
        UnderAt(d, all, q[|d|..]);
      }
    }
  }

  lemma {:induction false} UnderWithin(d: Path, entries: Tree, all: Tree)
    requires entries.Keys <= all.Keys
    ensures Under(d, entries).Keys <= Under(d, all).Keys
  {
    forall q | q in Under(d, entries)
      ensures q in Under(d, all)
    {
      assert d + q[|d|..] == q;
      UnderAt(d, all, q[|d|..]);
    }
  }

  lemma {:induction false} PutBack(w: Tree, p: Path, placed: Tree)
    requires placed.Keys <= Below(w, p).Keys
    ensures Back(w, Without(w, p) + placed) <==> HoldsAll(placed, Below(w, p))
  {
    assert forall q :: q in w <==> q in Without(w, p) || q in Below(w, p);
  }

  lemma {:induction false} ExtractsInto(w: Tree, p: Path, entries: Tree)
    requires p != [] && Under(Parent(p), entries).Keys <= Below(w, p).Keys
    ensures Extract(Without(w, p), Parent(p), entries) == Without(w, p) + Under(Parent(p), entries)
  {
    assert forall q :: q in Under(Parent(p), entries) ==> q !in Without(w, p);
  }

  /** What an archive gives back that `tar` can read in part: the deleted tree is back exactly when
      every node of it can be read, as it was. */
  lemma {:induction false} TornArchive(w: Tree, p: Path, backups: Backups, id: BackupId, entries: Tree)
    requires WellFormed(w) && p != [] && IsDir(w, p)
    requires entries.Keys <= RelativeTree(w, p).Keys
    requires id in backups && backups[id] == Archive(entries)
    ensures Back(w, RunRecipe(Without(w, p), backups, RecipeFor(w, p, id))) <==> HoldsAll(entries, RelativeTree(w, p))
  {
    AncestorsStay(w, p);
    TarExtracts(Without(w, p), backups, Parent(p), id, entries);
    ArchiveHoldsTree(w, p);
    UnderWithin(Parent(p), entries, RelativeTree(w, p));
    ExtractsInto(w, p, entries);
    PutBack(w, p, Under(Parent(p), entries));
    UnderHolds(Parent(p), entries, RelativeTree(w, p));
  }

  /** A symlink that was deleted comes back as it was exactly when root owned it: `ln` does not set
      the owner. */
  lemma {:induction false} LinkOwner(w: Tree, p: Path, backups: Backups, id: BackupId)
    requires WellFormed(w) && p in w && w[p].Link? && p != []
    ensures var r := RunRecipe(Without(w, p), backups, RecipeFor(w, p, id));
      && p in r && Alike(r[p], w[p])
      && (r[p] == w[p] <==> w[p].uid == ROOT_UID && w[p].gid == ROOT_GID)
  {
    assert IsDir(w, Parent(p)) && !(p <= Parent(p));
  }
}
