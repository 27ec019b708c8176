/** When undoing a whole run brings the tree back: the exact condition, on the run alone. */
module UndoExactly {
  import opened Wrappers
  import opened FileTree
  import opened Undo

  /** Where the recipe of an operation puts the old node if it does not get its own place back: inside
      the directory that a later write has made there. */
  function Misplaced(op: Op, w: Tree, made: set<Path>): set<Path>
    requires op.path != []
  {
    var p := op.path;
    if p in w && !w[p].Dir? && p in made && !IsDots(InnerName(w[p], p)) then {p + [InnerName(w[p], p)]} - made else {}
  }

  /** Directories that the extraction of a deleted tree replaces by its files and symlinks: nothing
      else that is left stands below them. */
  function Replaced(op: Op, w: Tree, made: set<Path>, stray: set<Path>): set<Path> {
    if op.Delete? && IsDir(w, op.path)
    then set q | q in made && q in w && op.path <= q && !w[q].Dir? && Free(q, made + stray)
    else {}
  }

  predicate Free(q: Path, left: set<Path>) {
    forall r :: r in left && q <= r ==> r == q
  }

  /** What the recipes of a run leave that was not there before: directories that its writes made, and
      misplaced nodes. */
  datatype Left = Left(dirs: set<Path>, strays: set<Path>)

  /** One recipe later. */
  function LeftAfter(op: Op, w: Tree, l: Left): Left
    requires op.path != []
  {
    Left(Makes(op, w) + l.dirs - Replaced(op, w, l.dirs, l.strays),
         l.strays + Misplaced(op, w, l.dirs) - w.Keys - (if op.Write? then {op.path} else {}))
  }

  function Leftovers(w: Tree, ops: Ops): Left
    requires CanRun(w, ops)
    decreases |ops|
  {
    if ops == [] then Left({}, {}) else LeftAfter(ops[0].0, w, Leftovers(Effect(ops[0].0, w), ops[1..]))
  }

  /** How the undone tree `u` stands to the tree `w` at path `q`: it has what `w` has, the directories
      left, and the strays. A directory that is left may stand in the place of a file of `w`. */
  predicate LandsAt(w: Tree, u: Tree, made: set<Path>, stray: set<Path>, q: Path) {
    && (q in u <==> q in w || q in made || q in stray)
    && (IsDir(u, q) <==> IsDir(w, q) || q in made)
    && (q in w && (w[q].Dir? || q !in made) ==> q in u && Alike(u[q], w[q]))
    && (q in stray ==> q !in w && q !in made)
  }

  ghost predicate Lands(w: Tree, u: Tree, made: set<Path>, stray: set<Path>) {
    forall q :: LandsAt(w, u, made, stray, q)
  }

  /** No directory is left where the tree before the run holds a file or symlink, and no node is left
      misplaced. */
  ghost predicate Undoable(w: Tree, ops: Ops)
    requires CanRun(w, ops)
  {
    && (forall q :: q in Leftovers(w, ops).dirs && q in w ==> w[q].Dir?)
    && Leftovers(w, ops).strays == {}
  }

  lemma {:induction false} BackIff(w: Tree, u: Tree, made: set<Path>, stray: set<Path>)
    requires Lands(w, u, made, stray)
    ensures Back(w, u) <==> (forall q :: q in made && q in w ==> w[q].Dir?) && stray == {}
  {
    if Back(w, u) {
      forall q | q in made && q in w
        ensures w[q].Dir?
      {
        assert LandsAt(w, u, made, stray, q);
      }
      forall q
        ensures q !in stray
      {
        assert LandsAt(w, u, made, stray, q);
      }
    }
    if (forall q :: q in made && q in w ==> w[q].Dir?) && stray == {} {
      forall p | p in w
        ensures p in u && Alike(u[p], w[p])
      {
        assert LandsAt(w, u, made, stray, p);
      }
      forall p | p in u && p !in w
        ensures u[p].Dir?
      {
        assert LandsAt(w, u, made, stray, p);
      }
    }
  }

  // ---------- what one operation does ----------

  lemma {:induction false} WriteAt(op: Op, w: Tree, q: Path)
    requires CanDo(op, w) && op.Write?
    ensures var (w1, makes) := (Effect(op, w), Makes(op, w));
      && (q in w1 <==> q in w || q in makes || q == op.path)
      && (IsDir(w1, q) <==> IsDir(w, q) || q in makes)
      && (q in w && q != op.path ==> w1[q] == w[q])
      && (q in makes ==> q !in w && |q| < |op.path|)
  {
  }

  /** The directories above a node stay when it is deleted or overwritten, and come back. */
  lemma {:induction false} ParentLands(op: Op, w: Tree, u1: Tree, made1: set<Path>, stray1: set<Path>, k: nat)
    requires WellFormed(w) && CanDo(op, w) && op.path in w && k < |op.path|
    requires Lands(Effect(op, w), u1, made1, stray1)
    ensures IsDir(u1, op.path[..k])
  {
    var p := op.path;
    AncestorStays(w, p, k);
    assert IsDir(Effect(op, w), p[..k]);
    assert LandsAt(Effect(op, w), u1, made1, stray1, p[..k]);
  }

  // ---------- the three kinds of undo ----------

  /** A new file is removed. */
  lemma {:induction false} FreshLands(
    op: Op, w: Tree, u1: Tree, made1: set<Path>, stray1: set<Path>, u: Tree, q: Path)
    requires CanDo(op, w) && op.Write? && op.path !in w
    requires Lands(Effect(op, w), u1, made1, stray1)
    requires u == if op.path in u1 && !u1[op.path].Dir? then u1 - {op.path} else u1
    ensures LandsAt(w, u, Makes(op, w) + made1, stray1 - w.Keys - {op.path}, q)
  {
    WriteAt(op, w, q);
    WriteAt(op, w, op.path);
    assert LandsAt(Effect(op, w), u1, made1, stray1, q);
    assert LandsAt(Effect(op, w), u1, made1, stray1, op.path);
  }

  /** Over a file or symlink: no directory has to be made, and only its own place changes. */
  lemma {:induction false} NodeAt(op: Op, w: Tree, q: Path)
    requires WellFormed(w) && CanDo(op, w) && op.path in w && !w[op.path].Dir?
    ensures var (p, w1) := (op.path, Effect(op, w));
      && Makes(op, w) == {}
      && (q in w1 <==> (q in w && q != p) || (op.Write? && q == p))
      && (IsDir(w1, q) <==> IsDir(w, q))
      && (q in w && q != p ==> w1[q] == w[q])
      && (p <= q && p != q ==> q !in w && q !in w1)
  {
    var p := op.path;
    if p <= q && p != q {
      NothingBelow(w, p, q);
    }
    if op.Write? {
      NoneMissing(w, p);
      WriteAt(op, w, q);
    } else if q in w && p <= q && q != p {
      NothingBelow(w, p, q);
    }
  }

  lemma {:induction false} NoneMissing(w: Tree, p: Path)
    requires WellFormed(w) && p in w && p != []
    ensures Missing(w, Parent(p)) == {}
  {
    var d := Parent(p);
    forall k | 0 <= k <= |d|
      ensures d[..k] in w
    {
      AncestorStays(w, p, k);
      assert d[..k] == p[..k];
    }
  }

  /** A file or symlink is put back in its place ... */
  lemma {:induction false} PlacedLands(
    op: Op, w: Tree, u1: Tree, made1: set<Path>, stray1: set<Path>, n: Node, q: Path)
    requires WellFormed(w) && CanDo(op, w) && op.path in w && !w[op.path].Dir?
    requires Lands(Effect(op, w), u1, made1, stray1) && op.path !in made1
    requires Alike(n, w[op.path]) && !n.Dir?
    ensures LandsAt(w, u1[op.path := n], made1, stray1 - w.Keys - (if op.Write? then {op.path} else {}), q)
  {
    NodeAt(op, w, q);
    NodeAt(op, w, op.path);
    assert LandsAt(Effect(op, w), u1, made1, stray1, q);
  }

  /** ... or inside the directory that stands there ... */
  lemma {:induction false} MisplacedLands(
    op: Op, w: Tree, u1: Tree, made1: set<Path>, stray1: set<Path>, n: Node, name: string, q: Path)
    requires WellFormed(w) && CanDo(op, w) && op.path in w && !w[op.path].Dir?
    requires Lands(Effect(op, w), u1, made1, stray1) && op.path in made1
    requires !n.Dir? && op.path + [name] !in made1
    ensures LandsAt(w, u1[op.path + [name] := n], made1,
                    stray1 + {op.path + [name]} - w.Keys - (if op.Write? then {op.path} else {}), q)
  {
    var s := op.path + [name];
    NodeAt(op, w, q);
    NodeAt(op, w, s);
    assert LandsAt(Effect(op, w), u1, made1, stray1, q);
    assert LandsAt(Effect(op, w), u1, made1, stray1, s);
  }

  /** ... or nowhere. */
  lemma {:induction false} RefusedLands(
    op: Op, w: Tree, u1: Tree, made1: set<Path>, stray1: set<Path>, q: Path)
    requires WellFormed(w) && CanDo(op, w) && op.path in w && !w[op.path].Dir?
    requires Lands(Effect(op, w), u1, made1, stray1) && op.path in made1
    ensures LandsAt(w, u1, made1, stray1 - w.Keys - (if op.Write? then {op.path} else {}), q)
  {
    NodeAt(op, w, q);
    assert LandsAt(Effect(op, w), u1, made1, stray1, q);
  }

  /** Where the recipe puts the node, and what it misplaces. */
  lemma {:induction false} PlaceCases(op: Op, w: Tree, u1: Tree, made1: set<Path>, stray1: set<Path>, n: Node)
    requires WellFormed(w) && CanDo(op, w) && op.path in w && !w[op.path].Dir?
    requires Lands(Effect(op, w), u1, made1, stray1)
    ensures var (p, name) := (op.path, InnerName(w[op.path], op.path));
      var u := Place(u1, p, name, n);
      if p !in made1 then u == u1[p := n] && Misplaced(op, w, made1) == {}
      else if IsDots(name) || p + [name] in made1 then u == u1 && Misplaced(op, w, made1) == {}
      else u == u1[p + [name] := n] && Misplaced(op, w, made1) == {p + [name]}
  {
    var (p, s) := (op.path, op.path + [InnerName(w[op.path], op.path)]);
    ParentLands(op, w, u1, made1, stray1, |p| - 1);
    NodeAt(op, w, p);
    NodeAt(op, w, s);
    assert LandsAt(Effect(op, w), u1, made1, stray1, p);
    assert LandsAt(Effect(op, w), u1, made1, stray1, s);
  }

  lemma {:induction false} NodeLands(
    op: Op, w: Tree, u1: Tree, made1: set<Path>, stray1: set<Path>, n: Node)
    requires WellFormed(w) && CanDo(op, w) && op.path in w && !w[op.path].Dir?
    requires Lands(Effect(op, w), u1, made1, stray1)
    requires Alike(n, w[op.path]) && !n.Dir?
    ensures Lands(w, Place(u1, op.path, InnerName(w[op.path], op.path), n), made1,
                  stray1 + Misplaced(op, w, made1) - w.Keys - (if op.Write? then {op.path} else {}))
  {
    var (p, name) := (op.path, InnerName(w[op.path], op.path));
    PlaceCases(op, w, u1, made1, stray1, n);
    var u := Place(u1, p, name, n);
    var stray := stray1 + Misplaced(op, w, made1) - w.Keys - (if op.Write? then {p} else {});
    assert stray1 + {} == stray1;
    forall q: Path
      ensures LandsAt(w, u, made1, stray, q)
    {
      if p !in made1 {
        PlacedLands(op, w, u1, made1, stray1, n, q);
      } else if IsDots(name) || p + [name] in made1 {
        RefusedLands(op, w, u1, made1, stray1, q);
      } else {
        MisplacedLands(op, w, u1, made1, stray1, n, name, q);
      }
    }
  }

  /** Where a tree was deleted, only leftovers can be below a path. */
  lemma {:induction false} OccupiedIff(
    op: Op, w: Tree, u1: Tree, made1: set<Path>, stray1: set<Path>, q: Path)
    requires CanDo(op, w) && op.Delete? && op.path <= q
    requires Lands(Effect(op, w), u1, made1, stray1)
    ensures Occupied(u1, q) <==> !Free(q, made1 + stray1)
  {
    if r :| r in u1 && q <= r && r != q {
      assert LandsAt(Effect(op, w), u1, made1, stray1, r);
      assert r !in Effect(op, w);
    }
    if r :| r in made1 + stray1 && q <= r && r != q {
      assert LandsAt(Effect(op, w), u1, made1, stray1, r);
    }
  }

  /** A tree is extracted. */
  lemma {:induction false} TreeLands(
    op: Op, w: Tree, u1: Tree, made1: set<Path>, stray1: set<Path>, u: Tree, q: Path)
    requires WellFormed(w) && CanDo(op, w) && op.Delete? && w[op.path].Dir?
    requires Lands(Effect(op, w), u1, made1, stray1)
    requires Merged(w, op.path, u1, u)
    ensures LandsAt(w, u, made1 - Replaced(op, w, made1, stray1), stray1 - w.Keys, q)
  {
    assert LandsAt(Effect(op, w), u1, made1, stray1, q);
    if op.path <= q {
      OccupiedIff(op, w, u1, made1, stray1, q);
    }
  }

  // ---------- whole runs ----------

  lemma {:induction false} FreshStep(op: Op, w: Tree, u1: Tree, made1: set<Path>, stray1: set<Path>, backups: Backups, id: BackupId)
    requires CanDo(op, w) && op.path !in w
    requires Lands(Effect(op, w), u1, made1, stray1)
    ensures Lands(w, RunRecipe(u1, backups, RecipeFor(w, op.path, id)), Makes(op, w) + made1, stray1 - w.Keys - {op.path})
  {
    var u := RunRecipe(u1, backups, RecipeFor(w, op.path, id));
    forall q: Path
      ensures LandsAt(w, u, Makes(op, w) + made1, stray1 - w.Keys - {op.path}, q)
    {
      FreshLands(op, w, u1, made1, stray1, u, q);
    }
  }

  lemma {:induction false} NodeStep(op: Op, w: Tree, u1: Tree, made1: set<Path>, stray1: set<Path>, backups: Backups, id: BackupId)
    requires WellFormed(w) && CanDo(op, w) && op.path in w && !w[op.path].Dir?
    requires Lands(Effect(op, w), u1, made1, stray1)
    requires Snapshot(w, op.path).Some? ==> id in backups && backups[id] == Snapshot(w, op.path).value
    ensures Lands(w, RunRecipe(u1, backups, RecipeFor(w, op.path, id)), made1,
                  stray1 + Misplaced(op, w, made1) - w.Keys - (if op.Write? then {op.path} else {}))
  {
    var n := Restored(w[op.path]);
    assert RunRecipe(u1, backups, RecipeFor(w, op.path, id)) == Place(u1, op.path, InnerName(w[op.path], op.path), n);
    NodeLands(op, w, u1, made1, stray1, n);
  }

  /** The directory of the deleted tree is there to extract into. */
  lemma {:induction false} TreeExtracts(op: Op, w: Tree, u1: Tree, made1: set<Path>, stray1: set<Path>, backups: Backups, id: BackupId)
    requires WellFormed(w) && CanDo(op, w) && op.path in w && w[op.path].Dir?
    requires Lands(Effect(op, w), u1, made1, stray1)
    requires id in backups && backups[id] == Archive(RelativeTree(w, op.path))
    ensures RunRecipe(u1, backups, RecipeFor(w, op.path, id)) == Extract(u1, Parent(op.path), RelativeTree(w, op.path))
  {
    var (p, d) := (op.path, Parent(op.path));
    forall k | 0 <= k <= |d|
      ensures IsDir(u1, d[..k])
    {
      ParentLands(op, w, u1, made1, stray1, k);
      assert d[..k] == p[..k];
    }
    TarExtracts(u1, backups, d, id, RelativeTree(w, p));
  }

  lemma {:induction false} TreeStep(op: Op, w: Tree, u1: Tree, made1: set<Path>, stray1: set<Path>, backups: Backups, id: BackupId)
    requires WellFormed(w) && CanDo(op, w) && op.path in w && w[op.path].Dir?
    requires Lands(Effect(op, w), u1, made1, stray1)
    requires id in backups && backups[id] == Archive(RelativeTree(w, op.path))
    ensures Lands(w, RunRecipe(u1, backups, RecipeFor(w, op.path, id)),
                  made1 - Replaced(op, w, made1, stray1), stray1 - w.Keys)
  {
    TreeExtracts(op, w, u1, made1, stray1, backups, id);
    var p := op.path;
    ArchiveHoldsTree(w, p);
    ExtractMerges(w, p, u1);
    var u := Extract(u1, Parent(p), RelativeTree(w, p));
    var made := made1 - Replaced(op, w, made1, stray1);
    forall q: Path
      ensures LandsAt(w, u, made, stray1 - w.Keys, q)
    {
      TreeLands(op, w, u1, made1, stray1, u, q);
    }
  }

  lemma {:induction false} StepLands(op: Op, w: Tree, u1: Tree, l: Left, backups: Backups, id: BackupId)
    requires WellFormed(w) && CanDo(op, w)
    requires Lands(Effect(op, w), u1, l.dirs, l.strays)
    requires Snapshot(w, op.path).Some? ==> id in backups && backups[id] == Snapshot(w, op.path).value
    ensures var after := LeftAfter(op, w, l);
      Lands(w, RunRecipe(u1, backups, RecipeFor(w, op.path, id)), after.dirs, after.strays)
  {
    var (made1, stray1) := (l.dirs, l.strays);
    LeftCases(op, w, l);
    if op.path !in w {
      FreshStep(op, w, u1, made1, stray1, backups, id);
    } else if w[op.path].Dir? {
      TreeStep(op, w, u1, made1, stray1, backups, id);
    } else {
      NodeStep(op, w, u1, made1, stray1, backups, id);
    }
  }

  lemma {:induction false} LeftCases(op: Op, w: Tree, l: Left)
    requires WellFormed(w) && CanDo(op, w)
    ensures LeftAfter(op, w, l) ==
      if op.path !in w then Left(Makes(op, w) + l.dirs, l.strays - w.Keys - {op.path})
      else if w[op.path].Dir? then Left(l.dirs - Replaced(op, w, l.dirs, l.strays), l.strays - w.Keys)
      else Left(l.dirs, l.strays + Misplaced(op, w, l.dirs) - w.Keys - (if op.Write? then {op.path} else {}))
  {
    if op.path in w && !w[op.path].Dir? {
      NodeAt(op, w, op.path);
    }
  }

  /** What undoing a run brings about, path by path. */
  lemma {:induction false} RunLands(w: Tree, backups: Backups, ops: Ops)
    requires WellFormed(w) && CanRun(w, ops) && KeepsBackups(w, ops)
    ensures var undone := UndoAll(RunAll(w, ops), BackupsAfter(w, backups, ops), Recipes(w, ops));
      Lands(w, undone, Leftovers(w, ops).dirs, Leftovers(w, ops).strays)
    decreases |ops|
  {
    if ops == [] {
      forall q: Path
        ensures LandsAt(w, w, {}, {}, q)
      {
      }
    } else {
      var (op, id) := ops[0];
      var w1 := Effect(op, w);
      var snap := Snapshot(w, op.path);
      var backups1 := if snap.Some? then backups[id := snap.value] else backups;
      EffectKeepsShape(op, w);
      RunLands(w1, backups1, ops[1..]);
      assert Recipes(w, ops)[1..] == Recipes(w1, ops[1..]);
      var after := BackupsAfter(w, backups, ops);
      if snap.Some? {
        BackupStays(w1, backups1, ops[1..], id);
      }
      var u1 := UndoAll(RunAll(w, ops), after, Recipes(w, ops)[1..]);
      StepLands(op, w, u1, Leftovers(w1, ops[1..]), after, id);
    }
  }

  /** Any run of successful operations that keeps its backups: running their recipes in reverse order
      brings the tree back if and only if no directory is left where the tree holds a file or symlink,
      and no node is left misplaced. Both can be seen from the run before it is undone. */
  lemma {:induction false} UndoneExactly(w: Tree, backups: Backups, ops: Ops)
    requires WellFormed(w) && CanRun(w, ops) && KeepsBackups(w, ops)
    ensures Back(w, UndoAll(RunAll(w, ops), BackupsAfter(w, backups, ops), Recipes(w, ops))) <==> Undoable(w, ops)
  {
    RunLands(w, backups, ops);
    var undone := UndoAll(RunAll(w, ops), BackupsAfter(w, backups, ops), Recipes(w, ops));
    BackIff(w, undone, Leftovers(w, ops).dirs, Leftovers(w, ops).strays);
  }

  // ---------- an empty directory yields ----------

  /** Delete the tree /d with the file /d/x, then write /d/x/y. Undoing the write leaves the directory
      /d/x, but empty, and `tar` replaces it by the file: the condition holds. With the file /x in the
      place of the tree, where `install` does not replace a directory, it does not
      (`Undo.ClashLosesTheFile`). */
  lemma {:induction false} EmptyDirectoryYields(m: Meta, id0: BackupId, id1: BackupId)
    ensures var (w, ops) := TreeRun(m, id0, id1);
      WellFormed(w) && CanRun(w, ops) && KeepsBackups(w, ops) && !NoClash(w, ops) && Undoable(w, ops)
  {
    var (w, ops) := TreeRun(m, id0, id1);
    var (op0, op1) := (ops[0].0, ops[1].0);
    TreeRunEffects(m, w, op0, op1);
    var w1 := Effect(op0, w);
    assert ops == [(op0, id0)] + [(op1, id1)];
    LastOfRun(w1, op1, id1);
    FirstOfRun(w, map[], op0, id0, [(op1, id1)]);
    TreeRunLeft(m, w, op0);
    assert ops[1..] == [(op1, id1)];
  }

  /** A run of one write. */
  lemma {:induction false} LastOfRun(w: Tree, op: Op, id: BackupId)
    requires CanDo(op, w) && op.path !in w && op.Write?
    ensures var ops: Ops := [(op, id)];
      && CanRun(w, ops) && KeepsBackups(w, ops) && StoredIds(w, ops) == {}
      && MadeBy(w, ops) == Makes(op, w) && Leftovers(w, ops) == Left(Makes(op, w), {})
  {
    FirstOfRun(w, map[], op, id, []);
    assert [(op, id)] + [] == [(op, id)] && [(op, id)][1..] == [];
    assert Makes(op, w) + {} == Makes(op, w);
    assert LeftAfter(op, w, Left({}, {})) == Left(Makes(op, w), {});
  }

  lemma {:induction false} TreeRunEffects(m: Meta, w: Tree, op0: Op, op1: Op)
    requires w == map[[] := Dir(m), ["d"] := Dir(m), ["d", "x"] := File("old", m)]
    requires op0 == Delete(["d"]) && op1 == Write(["d", "x", "y"], "new", m, m)
    ensures WellFormed(w) && CanDo(op0, w) && ["d", "x"] in Clobbers(op0, w)
    ensures var w1 := Effect(op0, w); CanDo(op1, w1) && op1.path !in w1 && Makes(op1, w1) == {["d"], ["d", "x"]}
  {
    assert Parent(["d"]) == [] && Parent(["d", "x"]) == ["d"];
    var w1 := Effect(op0, w);
    assert w1 == map[[] := Dir(m)];
    TreeRunMakes(w1, op1);
  }

  function TreeRun(m: Meta, id0: BackupId, id1: BackupId): (Tree, Ops) {
    (map[[] := Dir(m), ["d"] := Dir(m), ["d", "x"] := File("old", m)],
     [(Delete(["d"]), id0), (Write(["d", "x", "y"], "new", m, m), id1)])
  }

  lemma {:induction false} TreeRunMakes(w1: Tree, op1: Op)
    requires op1.Write? && op1.path == ["d", "x", "y"] && w1.Keys == {[]} && IsDir(w1, [])
    ensures CanDo(op1, w1) && Makes(op1, w1) == {["d"], ["d", "x"]}
  {
    var x := ["d", "x"];
    assert Parent(op1.path) == x && x[..0] == [] && x[..1] == ["d"] && x[..2] == x;
    assert Missing(w1, x) == {["d"], x};
  }

  lemma {:induction false} TreeRunLeft(m: Meta, w: Tree, op0: Op)
    requires op0 == Delete(["d"]) && w == map[[] := Dir(m), ["d"] := Dir(m), ["d", "x"] := File("old", m)]
    ensures LeftAfter(op0, w, Left({["d"], ["d", "x"]}, {})) == Left({["d"]}, {})
  {
    var (d, x) := (["d"], ["d", "x"]);
    assert Free(x, {d, x} + {});
    assert Replaced(op0, w, {d, x}, {}) == {x};
    assert Misplaced(op0, w, {d, x}) == {};
  }
}
