/** The part of the file system that the AI file operations work on, and what the commands in their
    rollback recipes do to it. Backups are kept apart: no operation works inside the backup root or
    above it. */
module FileTree {
  import opened Wrappers
  import opened Strings

  /** The components of a cleaned absolute path without symlinks; the root is []. */
  type Path = seq<string>

  datatype Meta = Meta(mode: nat, uid: nat, gid: nat)

  datatype Node =
    | File(content: string, meta: Meta)
    | Link(target: string, uid: nat, gid: nat)
    | Dir(meta: Meta)

  type Tree = map<Path, Node>

  const NEW_DIR_MODE := 0x1ED  // 0755
  const ROOT_UID := 0
  const ROOT_GID := 0

  function Parent(p: Path): Path
    requires p != []
  {
    p[..|p| - 1]
  }

  function Base(p: Path): string
    requires p != []
  {
    p[|p| - 1]
  }

  predicate IsDir(w: Tree, p: Path) {
    p in w && w[p].Dir?
  }

  /** Everything stands in a directory. */
  ghost predicate WellFormed(w: Tree) {
    && IsDir(w, [])
    && forall p :: p in w && p != [] ==> IsDir(w, Parent(p))
  }

  /** What is at `p` and below it, and what is not. */
  function Below(w: Tree, p: Path): Tree {
    map q | q in w && p <= q :: w[q]
  }

  function Without(w: Tree, p: Path): Tree {
    map q | q in w && !(p <= q) :: w[q]
  }

  // ---------- os.MkdirAll ----------

  /** The directories that are missing on the way to `p`, `p` included. */
  function Missing(w: Tree, p: Path): set<Path> {
    set k | 0 <= k <= |p| && p[..k] !in w :: p[..k]
  }

  predicate CanMkdirAll(w: Tree, p: Path) {
    forall k :: 0 <= k <= |p| && p[..k] in w ==> w[p[..k]].Dir?
  }

  function MkdirAll(w: Tree, p: Path, meta: Meta): Tree {
    w + map q | q in Missing(w, p) :: Dir(meta)
  }

  // ---------- the commands in recipes ----------

  /** What a backup holds: a file's content, or an archive of a tree, relative to its parent. */
  datatype Backup = Copy(content: string) | Archive(entries: Tree)

  type BackupId = Path
  type Backups = map<BackupId, Backup>

  datatype Recipe =
    | RmF(path: Path)
    | LnSfn(target: string, path: Path)
    | MkdirAndTarX(dir: Path, backup: BackupId)
    | Install(mode: nat, uid: nat, gid: nat, backup: BackupId, path: Path)

  /** Names that already mean a directory inside a directory. */
  predicate IsDots(name: string) {
    name == "" || name == "." || name == ".."
  }

  /** `ln` and `install` put the node at `p`, replacing what is there; but inside it, under the name
      of the source, when a directory is there. They do not replace a directory. */
  function Place(w: Tree, p: Path, name: string, n: Node): Tree
    requires p != []
  {
    if !IsDir(w, Parent(p)) then w
    else if !IsDir(w, p) then w[p := n]
    else if IsDots(name) || IsDir(w, p + [name]) then w
    else w[p + [name] := n]
  }

  /** The entries of an archive under the paths they get in directory `d`. */
  function Under(d: Path, entries: Tree): Tree {
    map q | q in (set e | e in entries :: d + e) && d <= q && q[|d|..] in entries :: entries[q[|d|..]]
  }

  /** The tree at `p` as an archive made from its parent directory holds it. */
  function RelativeTree(w: Tree, p: Path): Tree
    requires p != []
  {
    map e | e in (set q | q in w && p <= q :: q[|p| - 1..]) && Parent(p) + e in w :: w[Parent(p) + e]
  }

  lemma {:induction false} ArchiveHoldsTree(w: Tree, p: Path)
    requires p != []
    ensures Under(Parent(p), RelativeTree(w, p)) == Below(w, p)
  {
    var d := Parent(p);
    var (entries, below) := (RelativeTree(w, p), Below(w, p));
    forall q | q in below
      ensures q in Under(d, entries) && Under(d, entries)[q] == below[q]
    {
      var e := q[|p| - 1..];
      assert d + e == q by {
        assert q == q[..|p|] + q[|p|..];
      }
      assert e in entries;
    }
    forall q | q in Under(d, entries)
      ensures q in below
    {
      var e :| e in entries && q == d + e;
      var r :| r in w && p <= r && e == r[|p| - 1..];
      assert q == r;
    }
  }

  /** Something is below `q`. */
  predicate Occupied(w: Tree, q: Path) {
    exists r :: r in w && q <= r && r != q
  }

  /** A directory that is not empty resists an entry that is not a directory. */
  predicate Resists(w: Tree, q: Path, n: Node) {
    IsDir(w, q) && !n.Dir? && Occupied(w, q)
  }

  /** `tar -x` in directory `d`: an entry replaces what is at its place, an empty directory too. What
      resists stays, and the other entries are extracted all the same. */
  function Extract(w: Tree, d: Path, entries: Tree): Tree {
    var placed := Under(d, entries);
    w + map q | q in placed && !Resists(w, q, placed[q]) :: placed[q]
  }

  /** The name that `ln` uses inside a directory: the last component of the target. */
  function LastComponent(s: string): string {
    if s != "" && s[|s| - 1] == '/' then LastComponent(s[..|s| - 1]) else AfterSlash(s)
  }

  function AfterSlash(s: string): string {
    var k := IndexOf(s, "/");
    if k < 0 then s else AfterSlash(s[k + 1..])
  }

  predicate Slashes(s: string) {
    forall i :: 0 <= i < |s| ==> s[i] == '/'
  }

  /** What stands between the last slash and the slashes at the end. */
  lemma {:induction false} LastComponentIs(a: string, name: string, end: string)
    requires name != "" && '/' !in name && Slashes(end)
    requires a == "" || a[|a| - 1] == '/'
    ensures LastComponent(a + name + end) == name
    decreases |end|
  {
    var s := a + name + end;
    if end == "" {
      assert s == a + name && s[|s| - 1] == name[|name| - 1] && name[|name| - 1] in name;
      AfterSlashIs(a, name);
    } else {
      assert s[..|s| - 1] == a + name + end[..|end| - 1];
      LastComponentIs(a, name, end[..|end| - 1]);
    }
  }

  lemma {:induction false} AfterSlashIs(a: string, name: string)
    requires '/' !in name && (a == "" || a[|a| - 1] == '/')
    ensures AfterSlash(a + name) == name
    decreases |a|
  {
    var s := a + name;
    var k := IndexOf(s, "/");
    if a == "" {
      IndexOfByte(name, '/', "");
      assert s == name;
    } else {
      assert "/" <= s[|a| - 1..];
      IndexOfFirst(s, "/", |a| - 1);
      assert s[k + 1..] == a[k + 1..] + name;
      AfterSlashIs(a[k + 1..], name);
    }
  }

  /** What the shell does on a recipe, run by root. */
  function RunRecipe(w: Tree, backups: Backups, r: Recipe): Tree {
    match r
    case RmF(p) => if p in w && !w[p].Dir? then w - {p} else w
    case LnSfn(t, p) => if p == [] then w else Place(w, p, LastComponent(t), Link(t, ROOT_UID, ROOT_GID))
    case MkdirAndTarX(d, b) =>
      if CanMkdirAll(w, d) && b in backups && backups[b].Archive?
      then Extract(MkdirAll(w, d, Meta(NEW_DIR_MODE, ROOT_UID, ROOT_GID)), d, backups[b].entries)
      else w
    case Install(m, u, g, b, p) =>
      if p != [] && b in backups && backups[b].Copy?
      then Place(w, p, Base(p), File(backups[b].content, Meta(m, u, g)))
      else w
  }
}
