/** Runs of AI file operations through the manager, and undoing them. */
module AiRuns {
  import opened Wrappers
  import opened FileTree
  import opened Undo
  import opened UndoExactly
  import opened AiOps

  datatype Request =
    | WriteRequest(path: Path, content: string, mode: nat)
    | EditRequest(path: Path, oldString: string, newString: string, replaceAll: bool)
    | DeleteRequest(path: Path, recursive: bool)

  /** A request with its invocation and its surroundings. */
  datatype Call = Call(request: Request, invocation: string, weather: Weather)

  ghost predicate Proper(calls: seq<Call>) {
    forall k :: 0 <= k < |calls| ==> calls[k].request.path != []
  }

  /** The archives of the run were written to their end. */
  ghost predicate Flushed(calls: seq<Call>) {
    forall k :: 0 <= k < |calls| ==> calls[k].weather.works(FlushArchive)
  }

  /** The exact condition under which a call succeeds. */
  predicate Accepts(t: Tree, c: Call)
    requires c.request.path != []
  {
    var (p, w) := (c.request.path, c.weather);
    match c.request
    case WriteRequest(_, content, _) => Writes(t, c.invocation, p, content, w)
    case EditRequest(_, old', new', all) =>
      Edits(t, c.invocation, p, old', new', all, w) && Writes(t, c.invocation, p, Edited(t[p].content, old', new', all), w)
    case DeleteRequest(_, recursive) =>
      c.invocation != "" && p in t && (IsDir(t, p) ==> recursive) && Captures(t, p, w) && w.works(RemoveTarget)
  }

  /** The operation that a call performs. */
  function OpOf(t: Tree, c: Call, agent: Meta): Op {
    var p := c.request.path;
    match c.request
    case WriteRequest(_, content, mode) => Write(p, content, WrittenMeta(t, p, mode, agent, c.weather), agent)
    case EditRequest(_, old', new', all) =>
      var original := if p in t && t[p].File? then t[p].content else "";
      Write(p, if old' != "" then Edited(original, old', new', all) else "", WrittenMeta(t, p, 0, agent, c.weather), agent)
    case DeleteRequest(_, _) => Delete(p)
  }

  /** Each call is accepted on the tree that the calls before it leave. */
  ghost predicate AllAccepted(t: Tree, calls: seq<Call>, agent: Meta)
    requires Proper(calls)
    decreases |calls|
  {
    |calls| == 0 ||
    (&& Accepts(t, calls[0])
     && CanDo(OpOf(t, calls[0], agent), t)
     && AllAccepted(Effect(OpOf(t, calls[0], agent), t), calls[1..], agent))
  }

  method Perform(m: Manager, c: Call) returns (r: Result<BackupInfo, FsError>, ghost op: Op)
    requires m.Valid() && c.request.path != []
    modifies m`world, m`backups
    ensures m.Valid()
    ensures r.Success? <==> Accepts(old(m.world), c)
    ensures r.Success? ==>
      var id := m.IdFor(old(m.world), c.invocation, c.request.path);
      && op == OpOf(old(m.world), c, m.agent)
      && CanDo(op, old(m.world)) && m.world == Effect(op, old(m.world))
      && r.value.recipe == RecipeFor(old(m.world), op.path, id)
      && m.backups == Stored(old(m.world), op.path, id, old(m.backups), c.weather)
  {
    var (p, v, w) := (c.request.path, c.invocation, c.weather);
    match c.request
    case WriteRequest(_, content, mode) =>
      op := Write(p, content, WrittenMeta(m.world, p, mode, m.agent, w), m.agent);
      r := m.AIWrite(v, p, content, mode, w);
    case EditRequest(_, old', new', all) =>
      var original := if p in m.world && m.world[p].File? then m.world[p].content else "";
      op := Write(p, if old' != "" then Edited(original, old', new', all) else "",
                  WrittenMeta(m.world, p, 0, m.agent, w), m.agent);
      r := m.AIEdit(v, p, old', new', all, w);
    case DeleteRequest(_, recursive) =>
      op := Delete(p);
      r := m.AIDelete(v, p, recursive, w);
  }

  /** The operations of the calls store where the manager puts them. */
  ghost predicate StoredWhere(root: Path, calls: seq<Call>, ops: Ops)
    requires Proper(calls)
  {
    && |ops| == |calls|
    && forall k :: 0 <= k < |ops| ==>
         ops[k].1 in {BackupPath(root, calls[k].invocation, calls[k].request.path, false),
                      BackupPath(root, calls[k].invocation, calls[k].request.path, true)}
  }

  /** Performs the calls in order, stopping at the first failure, and keeps the recipes. */
  method PerformAll(m: Manager, calls: seq<Call>) returns (ok: bool, recipes: seq<Recipe>, ghost ops: Ops)
    requires m.Valid() && Proper(calls)
    modifies m`world, m`backups
    ensures m.Valid()
    ensures ok <==> AllAccepted(old(m.world), calls, m.agent)
    ensures ok ==>
      && StoredWhere(m.root, calls, ops)
      && CanRun(old(m.world), ops) && m.world == RunAll(old(m.world), ops)
      && recipes == Recipes(old(m.world), ops)
      && (Flushed(calls) ==> m.backups == BackupsAfter(old(m.world), old(m.backups), ops))
    decreases |calls|
  {
    if |calls| == 0 {
      return true, [], [];
    }
    ghost var (w, backups) := (m.world, m.backups);
    ghost var op;
    var r;
    r, op := Perform(m, calls[0]);
    if r.Failure? {
      return false, [], [];
    }
    ghost var rest;
    ok, recipes, rest := PerformAll(m, calls[1..]);
    recipes := [r.value.recipe] + recipes;
    ghost var id := m.IdFor(w, calls[0].invocation, calls[0].request.path);
    ops := [(op, id)] + rest;
    if ok {
      FirstOfRun(w, backups, op, id, rest);
      OneMoreStored(m.root, calls, (op, id), rest);
    }
  }

  lemma {:induction false} OneMoreStored(root: Path, calls: seq<Call>, first: (Op, BackupId), rest: Ops)
    requires Proper(calls) && calls != []
    requires first.1 in {BackupPath(root, calls[0].invocation, calls[0].request.path, false),
                         BackupPath(root, calls[0].invocation, calls[0].request.path, true)}
    requires StoredWhere(root, calls[1..], rest)
    ensures StoredWhere(root, calls, [first] + rest)
  {
    var ops := [first] + rest;
    forall k | 0 <= k < |ops|
      ensures ops[k].1 in {BackupPath(root, calls[k].invocation, calls[k].request.path, false),
                           BackupPath(root, calls[k].invocation, calls[k].request.path, true)}
    {
      if k > 0 {
        assert calls[1..][k - 1] == calls[k] && ops[k] == rest[k - 1];
      }
    }
  }

  /** Calls of different invocations keep each other's backups. */
  lemma {:induction false} InvocationsApart(w: Tree, root: Path, calls: seq<Call>, ops: Ops)
    requires Proper(calls) && StoredWhere(root, calls, ops) && CanRun(w, ops)
    requires forall i, j :: 0 <= i < j < |calls| ==> calls[i].invocation != calls[j].invocation
    ensures KeepsBackups(w, ops)
    decreases |ops|
  {
    if ops != [] {
      forall k | 0 <= k < |ops[1..]|
        ensures ops[1..][k].1 != ops[0].1
      {
        assert ops[1..][k] == ops[k + 1];
        assert ops[0].1[|root|] == calls[0].invocation && ops[k + 1].1[|root|] == calls[k + 1].invocation;
      }
      IdNotStored(Effect(ops[0].0, w), ops[1..], ops[0].1);
      forall k | 0 <= k < |ops[1..]|
        ensures ops[1..][k].1 in {BackupPath(root, calls[1..][k].invocation, calls[1..][k].request.path, false),
                                  BackupPath(root, calls[1..][k].invocation, calls[1..][k].request.path, true)}
      {
        assert ops[1..][k] == ops[k + 1] && calls[1..][k] == calls[k + 1];
      }
      InvocationsApart(Effect(ops[0].0, w), root, calls[1..], ops[1..]);
    }
  }

  lemma {:induction false} IdNotStored(w: Tree, ops: Ops, id: BackupId)
    requires CanRun(w, ops) && forall k :: 0 <= k < |ops| ==> ops[k].1 != id
    ensures id !in StoredIds(w, ops)
    decreases |ops|
  {
    if ops != [] {
      IdNotStored(Effect(ops[0].0, w), ops[1..], id);
    }
  }

  /** Runs the recipes in reverse order, as an operator does. */
  method UndoRecipes(m: Manager, recipes: seq<Recipe>)
    modifies m`world
    ensures m.world == UndoAll(old(m.world), m.backups, recipes)
    decreases |recipes|
  {
    if recipes != [] {
      UndoRecipes(m, recipes[1..]);
      m.world := RunRecipe(m.world, m.backups, recipes[0]);
    }
  }

  /** A run and its undoing through the manager: if each call is an invocation of its own, or the
      backups do not meet otherwise, the tree is back under the exact condition. */
  method PerformAndUndo(m: Manager, calls: seq<Call>) returns (ok: bool, ghost ops: Ops)
    requires m.Valid() && Proper(calls)
    modifies m`world, m`backups
    ensures ok <==> AllAccepted(old(m.world), calls, m.agent)
    ensures ok ==> CanRun(old(m.world), ops) && StoredWhere(m.root, calls, ops)
    ensures ok && Flushed(calls) && KeepsBackups(old(m.world), ops) ==>
      (Back(old(m.world), m.world) <==> Undoable(old(m.world), ops))
  {
    ghost var (w, backups) := (m.world, m.backups);
    var recipes;
    ok, recipes, ops := PerformAll(m, calls);
    if ok {
      UndoRecipes(m, recipes);
      if KeepsBackups(w, ops) {
        UndoneExactly(w, backups, ops);
      }
    }
  }
}
