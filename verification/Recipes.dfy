/** The text of a rollback recipe: what the shell and the commands make of it. */
module Recipes {
  import opened Wrappers
  import opened Strings
  import opened Numbers
  import opened FileTree
  import opened Undo
  import opened UndoExactly
  import Shell

  // ---------- printing, as captureBackup does ----------

  /** The parts of a recipe, printed with one space between them. */
  datatype Piece = Bare(s: string) | Quoted(s: string) | AndThen

  function PathText(p: Path): string {
    "/" + Join(p, "/")
  }

  function Pieces(r: Recipe): seq<Piece> {
    match r
    case RmF(p) => [Bare("rm"), Bare("-f"), Quoted(PathText(p))]
    case LnSfn(t, p) => [Bare("ln"), Bare("-sfn"), Quoted(t), Quoted(PathText(p))]
    case MkdirAndTarX(d, b) =>
      [Bare("mkdir"), Bare("-p"), Quoted(PathText(d)), AndThen,
       Bare("tar"), Bare("-xzf"), Quoted(PathText(b)), Bare("-C"), Quoted(PathText(d))]
    case Install(m, u, g, b, p) =>
      [Bare("install"), Bare("-m"), Bare(Digits(m, Octal)), Bare("-o"), Bare(Digits(u, Decimal)), Bare("-g"), Bare(Digits(g, Decimal)),
       Quoted(PathText(b)), Quoted(PathText(p))]
  }

  function Show(p: Piece): string {
    match p
    case Bare(s) => s
    case Quoted(s) => Shell.ShellQuote(s)
    case AndThen => "&&"
  }

  function ShowAll(ps: seq<Piece>): (r: seq<string>)
    ensures |r| == |ps| && forall k :: 0 <= k < |ps| ==> r[k] == Show(ps[k])
  {
    seq(|ps|, k requires 0 <= k < |ps| => Show(ps[k]))
  }

  function RecipeText(r: Recipe): string {
    Join(ShowAll(Pieces(r)), " ")
  }

  // ---------- the shell ----------

  function TokensOf(ps: seq<Piece>): seq<Shell.Token> {
    if ps == [] then [] else PieceTokens(ps[0]) + TokensOf(ps[1..])
  }

  function PieceTokens(p: Piece): seq<Shell.Token> {
    match p
    case Bare(s) => [Shell.Word(s)]
    case Quoted(s) => [Shell.Word(s)]
    case AndThen => [Shell.Op("&&")]
  }

  /** Letters, digits and dashes mean themselves. */
  predicate PlainWord(s: string) {
    s != "" && forall c :: c in s ==> 'a' <= c <= 'z' || 'A' <= c <= 'Z' || '0' <= c <= '9' || c == '-'
  }

  predicate Printable(ps: seq<Piece>) {
    forall k :: 0 <= k < |ps| && ps[k].Bare? ==> PlainWord(ps[k].s)
  }

  lemma {:induction false} PlainRead(r: Shell.Reader, s: string)
    requires r.Reader? && (r.mode.InWord? || r.mode.Gap?) && r.live == [] && r.here == Shell.NONE && PlainWord(s)
    ensures Shell.Read(r, s) == Shell.At(r.done, Shell.InWord, r.word + s)
    decreases |s|
  {
    assert s[0] in s;
    var next := Shell.At(r.done, Shell.InWord, r.word + [s[0]]);
    assert Shell.Step(r, s[0]) == next;
    if |s| == 1 {
      assert s == [s[0]] && s[1..] == "";
    } else {
      assert forall c :: c in s[1..] ==> c in s;
      PlainRead(next, s[1..]);
      assert r.word + [s[0]] + s[1..] == r.word + s;
    }
  }

  lemma {:induction false} PieceRead(done: seq<Shell.Token>, p: Piece)
    requires p.Bare? ==> PlainWord(p.s)
    ensures var r := Shell.Read(Shell.At(done, Shell.Gap, ""), Show(p));
      && Shell.Finish(r) == Some(done + PieceTokens(p))
      && Shell.Step(r, ' ') == Shell.At(done + PieceTokens(p), Shell.Gap, "")
  {
    var r := Shell.At(done, Shell.Gap, "");
    match p
    case Bare(s) => PlainRead(r, s);
      assert "" + s == s;
    case Quoted(s) => Shell.BothEscape();
      Shell.QuotedRead(r, s, "'\"'\"'");
      assert "" + s == s;
    case AndThen =>
      Shell.NotLong("&&");
      assert "&&"[1..] == "&" && "&"[1..] == "" && "&" + "&" == "&&";
      assert Shell.Read(r, "&&") == Shell.Read(Shell.Step(Shell.Step(r, '&'), '&'), "");
  }

  /** A piece and the space after it. */
  lemma {:induction false} PieceAndSpace(done: seq<Shell.Token>, p: Piece, rest: string)
    requires p.Bare? ==> PlainWord(p.s)
    ensures Shell.Read(Shell.At(done, Shell.Gap, ""), Show(p) + " " + rest)
         == Shell.Read(Shell.At(done + PieceTokens(p), Shell.Gap, ""), rest)
  {
    PieceRead(done, p);
    assert Show(p) + " " + rest == Show(p) + (" " + rest);
    Shell.ReadConcat(Shell.At(done, Shell.Gap, ""), Show(p), " " + rest);
    assert (" " + rest)[1..] == rest;
  }

  lemma {:induction false} ShownFirst(ps: seq<Piece>)
    requires |ps| > 1
    ensures Join(ShowAll(ps), " ") == Show(ps[0]) + " " + Join(ShowAll(ps[1..]), " ")
  {
    assert ShowAll(ps)[1..] == ShowAll(ps[1..]);
  }

  lemma {:induction false} TokensFirst(done: seq<Shell.Token>, ps: seq<Piece>)
    requires ps != []
    ensures done + PieceTokens(ps[0]) + TokensOf(ps[1..]) == done + TokensOf(ps)
  {
  }

  lemma {:induction false} PiecesRead(done: seq<Shell.Token>, ps: seq<Piece>)
    requires ps != [] && Printable(ps)
    ensures Shell.Finish(Shell.Read(Shell.At(done, Shell.Gap, ""), Join(ShowAll(ps), " "))) == Some(done + TokensOf(ps))
    decreases |ps|
  {
    TokensFirst(done, ps);
    if |ps| == 1 {
      PieceRead(done, ps[0]);
      assert Join(ShowAll(ps), " ") == Show(ps[0]);
      assert TokensOf(ps[1..]) == [] && done + PieceTokens(ps[0]) + [] == done + PieceTokens(ps[0]);
    } else {
      ShownFirst(ps);
      PieceAndSpace(done, ps[0], Join(ShowAll(ps[1..]), " "));
      PiecesRead(done + PieceTokens(ps[0]), ps[1..]);
    }
  }

  // ---------- the commands ----------

  /** The path that an absolute path name stands for. */
  function ParsePath(s: string): Option<Path> {
    if s == "" || s[0] != '/' then None
    else if s == "/" then Some([])
    else Some(Split(s[1..], '/'))
  }

  /** An argument that a command takes for an option, or for the end of the options; a lone dash is an
      operand (guideline 13 in section 12.2 of POSIX.1-2017). */
  predicate IsOption(s: string) {
    "-" <= s && |s| > 1
  }

  function Operand(t: Shell.Token): Option<string> {
    if t.Word? && !IsOption(t.text) then Some(t.text) else None
  }

  function PathOperand(t: Shell.Token): Option<Path> {
    var s := Operand(t);
    if s.Some? then ParsePath(s.value) else None
  }

  function Number(t: Shell.Token, base: Base): Option<nat> {
    if t.Word? then ReadNumeral(t.text, base) else None
  }

  /** The recipe that a list of tokens asks for, as the commands read their arguments. */
  function Interpret(t: seq<Shell.Token>): Option<Recipe> {
    if |t| == 3 && t[..2] == [Shell.Word("rm"), Shell.Word("-f")] then
      var p := PathOperand(t[2]);
      if p.Some? then Some(RmF(p.value)) else None
    else if |t| == 4 && t[..2] == [Shell.Word("ln"), Shell.Word("-sfn")] then
      var (target, p) := (Operand(t[2]), PathOperand(t[3]));
      if target.Some? && p.Some? then Some(LnSfn(target.value, p.value)) else None
    else if |t| == 9 && t[..2] == [Shell.Word("mkdir"), Shell.Word("-p")]
            && t[3..6] == [Shell.Op("&&"), Shell.Word("tar"), Shell.Word("-xzf")]
            && t[7] == Shell.Word("-C") then
      var (d, b, c) := (PathOperand(t[2]), PathOperand(t[6]), PathOperand(t[8]));
      if d.Some? && b.Some? && c == d then Some(MkdirAndTarX(d.value, b.value)) else None
    else if |t| == 9 && t[..2] == [Shell.Word("install"), Shell.Word("-m")]
            && t[3] == Shell.Word("-o") && t[5] == Shell.Word("-g") then
      var (m, u, g) := (Number(t[2], Octal), Number(t[4], Decimal), Number(t[6], Decimal));
      var (b, p) := (PathOperand(t[7]), PathOperand(t[8]));
      if m.Some? && u.Some? && g.Some? && b.Some? && p.Some?
      then Some(Install(m.value, u.value, g.value, b.value, p.value))
      else None
    else None
  }

  // ---------- both ----------

  /** Names that a file can have. */
  predicate ValidPath(p: Path) {
    forall k :: 0 <= k < |p| ==> p[k] != "" && '/' !in p[k]
  }

  predicate ValidRecipe(r: Recipe) {
    match r
    case RmF(p) => ValidPath(p)
    case LnSfn(_, p) => ValidPath(p)
    case MkdirAndTarX(d, b) => ValidPath(d) && ValidPath(b)
    case Install(_, _, _, b, p) => ValidPath(b) && ValidPath(p)
  }

  lemma {:induction false} PathReadsBack(p: Path)
    requires ValidPath(p)
    ensures PathOperand(Shell.Word(PathText(p))) == Some(p)
  {
    var s := PathText(p);
    assert s[1..] == Join(p, "/");
    assert s[0] == '/' && !IsOption(s);
    if p != [] {
      assert p[0] != "";
      SplitJoin(p, '/');
    }
  }

  lemma {:induction false} DigitsPlain(n: nat, base: Base)
    ensures PlainWord(Digits(n, base))
  {
    DigitsReadBack(n, base);
    var s := Digits(n, base);
    assert forall c :: c in s ==> IsDigit(c, base);
  }

  lemma {:induction false} FirstWordsPlain()
    ensures PlainWord("rm") && PlainWord("-f") && PlainWord("ln") && PlainWord("-sfn")
    ensures PlainWord("mkdir") && PlainWord("-p") && PlainWord("tar")
  {
  }

  lemma {:induction false} OtherWordsPlain()
    ensures PlainWord("-xzf") && PlainWord("-C")
    ensures PlainWord("install") && PlainWord("-m") && PlainWord("-o") && PlainWord("-g")
  {
  }

  lemma {:induction false} TarPrintable(mkdir: string, p: string, tar: string, xzf: string, c: string, d: string, b: string)
    requires PlainWord(mkdir) && PlainWord(p) && PlainWord(tar) && PlainWord(xzf) && PlainWord(c)
    ensures Printable([Bare(mkdir), Bare(p), Quoted(d), AndThen, Bare(tar), Bare(xzf), Quoted(b), Bare(c), Quoted(d)])
  {
  }

  lemma {:induction false} InstallPrintable(words: seq<string>, b: string, p: string)
    requires |words| == 7 && forall k :: 0 <= k < 7 ==> PlainWord(words[k])
    ensures Printable([Bare(words[0]), Bare(words[1]), Bare(words[2]), Bare(words[3]), Bare(words[4]), Bare(words[5]),
                       Bare(words[6]), Quoted(b), Quoted(p)])
  {
  }

  lemma {:induction false} PiecesPrintable(r: Recipe)
    ensures Printable(Pieces(r))
  {
    FirstWordsPlain();
    OtherWordsPlain();
    match r
    case RmF(_) =>
    case LnSfn(_, _) =>
    case MkdirAndTarX(d, b) =>
      TarPrintable("mkdir", "-p", "tar", "-xzf", "-C", PathText(d), PathText(b));
    case Install(m, u, g, b, p) =>
      DigitsPlain(m, Octal);
      DigitsPlain(u, Decimal);
      DigitsPlain(g, Decimal);
      var words := ["install", "-m", Digits(m, Octal), "-o", Digits(u, Decimal), "-g", Digits(g, Decimal)];
      InstallPrintable(words, PathText(b), PathText(p));
  }

  /** The tokens, written out. */
  function Argv(r: Recipe): seq<Shell.Token> {
    match r
    case RmF(p) => [Shell.Word("rm"), Shell.Word("-f"), Shell.Word(PathText(p))]
    case LnSfn(t, p) => [Shell.Word("ln"), Shell.Word("-sfn"), Shell.Word(t), Shell.Word(PathText(p))]
    case MkdirAndTarX(d, b) =>
      [Shell.Word("mkdir"), Shell.Word("-p"), Shell.Word(PathText(d)), Shell.Op("&&"),
       Shell.Word("tar"), Shell.Word("-xzf"), Shell.Word(PathText(b)), Shell.Word("-C"), Shell.Word(PathText(d))]
    case Install(m, u, g, b, p) =>
      [Shell.Word("install"), Shell.Word("-m"), Shell.Word(Digits(m, Octal)), Shell.Word("-o"), Shell.Word(Digits(u, Decimal)),
       Shell.Word("-g"), Shell.Word(Digits(g, Decimal)), Shell.Word(PathText(b)), Shell.Word(PathText(p))]
  }

  lemma {:induction false} WordsOnly(ps: seq<Piece>)
    requires forall k :: 0 <= k < |ps| ==> !ps[k].AndThen?
    ensures |TokensOf(ps)| == |ps|
    ensures forall k :: 0 <= k < |ps| ==> TokensOf(ps)[k] == Shell.Word(ps[k].s)
  {
    if ps != [] {
      WordsOnly(ps[1..]);
    }
  }

  lemma {:induction false} TokensAround(a: seq<Piece>, b: seq<Piece>)
    ensures TokensOf(a + b) == TokensOf(a) + TokensOf(b)
  {
    if a == [] {
      assert a + b == b;
    } else {
      assert (a + b)[1..] == a[1..] + b;
      TokensAround(a[1..], b);
    }
  }

  lemma {:induction false} ArgvIs(r: Recipe)
    ensures TokensOf(Pieces(r)) == Argv(r)
  {
    if r.MkdirAndTarX? {
      ArgvOfTar(r.dir, r.backup);
    } else {
      WordsOnly(Pieces(r));
    }
  }

  lemma {:induction false} ArgvOfTar(d: Path, b: BackupId)
    ensures TokensOf(Pieces(MkdirAndTarX(d, b))) == Argv(MkdirAndTarX(d, b))
  {
    var first := [Bare("mkdir"), Bare("-p"), Quoted(PathText(d))];
    var second := [Bare("tar"), Bare("-xzf"), Quoted(PathText(b)), Bare("-C"), Quoted(PathText(d))];
    assert Pieces(MkdirAndTarX(d, b)) == first + ([AndThen] + second);
    JoinedByAnd(first, second);
    MkdirWords(PathText(d));
    TarWords(PathText(b), PathText(d));
  }

  lemma {:induction false} MkdirWords(d: string)
    ensures TokensOf([Bare("mkdir"), Bare("-p"), Quoted(d)]) == [Shell.Word("mkdir"), Shell.Word("-p"), Shell.Word(d)]
  {
    WordsOnly([Bare("mkdir"), Bare("-p"), Quoted(d)]);
  }

  lemma {:induction false} TarWords(b: string, d: string)
    ensures TokensOf([Bare("tar"), Bare("-xzf"), Quoted(b), Bare("-C"), Quoted(d)])
         == [Shell.Word("tar"), Shell.Word("-xzf"), Shell.Word(b), Shell.Word("-C"), Shell.Word(d)]
  {
    WordsOnly([Bare("tar"), Bare("-xzf"), Quoted(b), Bare("-C"), Quoted(d)]);
  }

  lemma {:induction false} JoinedByAnd(a: seq<Piece>, b: seq<Piece>)
    ensures TokensOf(a + ([AndThen] + b)) == TokensOf(a) + ([Shell.Op("&&")] + TokensOf(b))
  {
    TokensAround(a, [AndThen] + b);
    assert ([AndThen] + b)[1..] == b;
  }

  lemma {:induction false} InterpretArgv(r: Recipe)
    requires ValidRecipe(r)
    ensures Interpret(Argv(r)) == Some(r) <==> !(r.LnSfn? && "-" <= r.target && |r.target| > 1)
  {
    match r
    case RmF(p) => PathReadsBack(p);
    case LnSfn(t, p) => PathReadsBack(p);
    case MkdirAndTarX(d, b) => InterpretTar(d, b);
    case Install(m, u, g, b, p) => InterpretInstall(m, u, g, b, p);
  }

  lemma {:induction false} InterpretTar(d: Path, b: BackupId)
    requires ValidPath(d) && ValidPath(b)
    ensures Interpret(Argv(MkdirAndTarX(d, b))) == Some(MkdirAndTarX(d, b))
  {
    PathReadsBack(d);
    PathReadsBack(b);
    var t := Argv(MkdirAndTarX(d, b));
    assert t[..2] == [Shell.Word("mkdir"), Shell.Word("-p")];
    assert t[3..6] == [Shell.Op("&&"), Shell.Word("tar"), Shell.Word("-xzf")];
  }

  lemma {:induction false} InterpretInstall(m: nat, u: nat, g: nat, b: BackupId, p: Path)
    requires ValidPath(b) && ValidPath(p)
    ensures Interpret(Argv(Install(m, u, g, b, p))) == Some(Install(m, u, g, b, p))
  {
    NumberReadsBack(m, Octal);
    NumberReadsBack(u, Decimal);
    NumberReadsBack(g, Decimal);
    PathReadsBack(b);
    PathReadsBack(p);
  }

  lemma {:induction false} NumberReadsBack(n: nat, base: Base)
    ensures Number(Shell.Word(Digits(n, base)), base) == Some(n)
  {
    DigitsReadBack(n, base);
  }

  /** The recipe's text, whatever bytes the names hold, asks the commands for exactly that recipe;
      except that `ln` takes a symlink target of a dash and more for an option. */
  lemma {:induction false} RecipeReadsBack(r: Recipe)
    requires ValidRecipe(r)
    ensures Shell.Tokens(RecipeText(r)).Some?
    ensures Interpret(Shell.Tokens(RecipeText(r)).value) == Some(r) <==> !(r.LnSfn? && "-" <= r.target && |r.target| > 1)
  {
    PiecesPrintable(r);
    PiecesRead([], Pieces(r));
    assert [] + TokensOf(Pieces(r)) == TokensOf(Pieces(r));
    ArgvIs(r);
    InterpretArgv(r);
  }

  // ---------- undoing with texts ----------

  /** What running a text as a shell command does to the tree, if it is one of the recipes. */
  function RunText(w: Tree, backups: Backups, text: string): Tree {
    var t := Shell.Tokens(text);
    var r := if t.Some? then Interpret(t.value) else None;
    if r.Some? then RunRecipe(w, backups, r.value) else w
  }

  /** Runs texts in reverse order. */
  function RunTexts(now: Tree, backups: Backups, texts: seq<string>): Tree
    decreases |texts|
  {
    if texts == [] then now else RunText(RunTexts(now, backups, texts[1..]), backups, texts[0])
  }

  function Texts(rs: seq<Recipe>): (r: seq<string>)
    ensures |r| == |rs| && forall k :: 0 <= k < |rs| ==> r[k] == RecipeText(rs[k])
  {
    seq(|rs|, k requires 0 <= k < |rs| => RecipeText(rs[k]))
  }

  lemma {:induction false} TextRuns(now: Tree, backups: Backups, r: Recipe)
    requires ValidRecipe(r) && !(r.LnSfn? && "-" <= r.target && |r.target| > 1)
    ensures RunText(now, backups, RecipeText(r)) == RunRecipe(now, backups, r)
  {
    RecipeReadsBack(r);
  }

  lemma {:induction false} TextsRun(now: Tree, backups: Backups, rs: seq<Recipe>)
    requires forall r :: r in rs ==> ValidRecipe(r) && !(r.LnSfn? && "-" <= r.target && |r.target| > 1)
    ensures RunTexts(now, backups, Texts(rs)) == UndoAll(now, backups, rs)
    decreases |rs|
  {
    if rs != [] {
      assert Texts(rs)[1..] == Texts(rs[1..]);
      assert rs[0] in rs && forall r :: r in rs[1..] ==> r in rs;
      TextsRun(now, backups, rs[1..]);
      TextRuns(UndoAll(now, backups, rs[1..]), backups, rs[0]);
    }
  }

  /** Undoing a run by handing the recipe texts to a shell works under the same exact condition. */
  lemma {:induction false} TextsRestore(w: Tree, backups: Backups, ops: Ops)
    requires WellFormed(w) && CanRun(w, ops) && KeepsBackups(w, ops)
    requires forall r :: r in Recipes(w, ops) ==> ValidRecipe(r) && !(r.LnSfn? && "-" <= r.target && |r.target| > 1)
    ensures Back(w, RunTexts(RunAll(w, ops), BackupsAfter(w, backups, ops), Texts(Recipes(w, ops)))) <==> Undoable(w, ops)
  {
    TextsRun(RunAll(w, ops), BackupsAfter(w, backups, ops), Recipes(w, ops));
    UndoneExactly(w, backups, ops);
  }
}
