/** The sshd_config editor: rewriting a file for requested settings, and reading settings back. */
module Sshd {
  import opened Wrappers
  import opened Strings
  import opened Numbers

  // ---------- settings ----------

  datatype Key = Port | PermitRootLogin | PasswordAuth | PubkeyAuth

  datatype Value = Number(n: Int) | Flag(b: bool)

  datatype Config = Config(port: Int, permitRootLogin: bool, passwordAuth: bool, pubkeyAuth: bool)

  const DEFAULT := Config(22, true, true, true)

  /** What UpdateConfig is asked to set. */
  datatype Request = Request(
    port: Option<Int>, permitRootLogin: Option<bool>, passwordAuth: Option<bool>, pubkeyAuth: Option<bool>)

  function Lookup(c: Config, k: Key): Value {
    match k
    case Port => Number(c.port)
    case PermitRootLogin => Flag(c.permitRootLogin)
    case PasswordAuth => Flag(c.passwordAuth)
    case PubkeyAuth => Flag(c.pubkeyAuth)
  }

  function Wanted(req: Request, k: Key): Option<Value> {
    match k
    case Port => if req.port.Some? then Some(Number(req.port.value)) else None
    case PermitRootLogin => WantedFlag(req.permitRootLogin)
    case PasswordAuth => WantedFlag(req.passwordAuth)
    case PubkeyAuth => WantedFlag(req.pubkeyAuth)
  }

  function WantedFlag(b: Option<bool>): Option<Value> {
    if b.Some? then Some(Flag(b.value)) else None
  }

  /** The value asked for, or else the one from before. */
  function Asked(req: Request, k: Key, before: Value): Value {
    if Wanted(req, k).Some? then Wanted(req, k).value else before
  }

  function Title(k: Key): string {
    match k
    case Port => "Port"
    case PermitRootLogin => "PermitRootLogin"
    case PasswordAuth => "PasswordAuthentication"
    case PubkeyAuth => "PubkeyAuthentication"
  }

  /** The keyword after conversion to lower case. */
  function KeyNamed(word: string): Option<Key> {
    if word == "port" then Some(Port)
    else if word == "permitrootlogin" then Some(PermitRootLogin)
    else if word == "passwordauthentication" then Some(PasswordAuth)
    else if word == "pubkeyauthentication" then Some(PubkeyAuth)
    else None
  }

  function BoolToSSHValue(b: bool): string {
    if b then "yes" else "no"
  }

  function ParseBoolValue(value: string): bool {
    var v := ToLower(value);
    v == "yes" || v == "true" || v == "1"
  }

  function Render(v: Value): string {
    match v
    case Number(n) => Itoa(n)
    case Flag(b) => BoolToSSHValue(b)
  }

  function Parse(k: Key, text: string): Option<Value> {
    if k.Port? then
      var n := Atoi(text);
      if n.Some? then Some(Number(n.value)) else None
    else Some(Flag(ParseBoolValue(text)))
  }

  function Directive(k: Key, v: Value): string {
    Title(k) + " " + Render(v)
  }

  // ---------- lines ----------

  /** The key that a line, commented out or not, is rewritten for. */
  function WrittenKey(line: string): Option<Key> {
    var trimmed := TrimSpace(line);
    var trimmed := if "#" <= trimmed then TrimSpace(trimmed[1..]) else trimmed;
    var parts := Fields(trimmed);
    if |parts| < 1 then None else KeyNamed(ToLower(parts[0]))
  }

  /** The key that an active line sets, and the text of its value. */
  function ReadSetting(line: string): Option<(Key, string)> {
    var line := TrimSpace(line);
    if line == "" || "#" <= line then None
    else
      var parts := Fields(line);
      if |parts| < 2 then None
      else
        var k := KeyNamed(ToLower(parts[0]));
        if k.Some? then Some((k.value, parts[1])) else None
  }

  lemma {:induction false} ReadersAgree(line: string)
    ensures ReadSetting(line).Some? ==> WrittenKey(line) == Some(ReadSetting(line).value.0)
  {
  }

  function Rewritten(line: string, req: Request): string {
    var k := WrittenKey(line);
    if k.Some? && Wanted(req, k.value).Some? then Directive(k.value, Wanted(req, k.value).value) else line
  }

  function Mapped(lines: seq<string>, req: Request): (r: seq<string>)
    ensures |r| == |lines| && forall i :: 0 <= i < |lines| ==> r[i] == Rewritten(lines[i], req)
  {
    seq(|lines|, i requires 0 <= i < |lines| => Rewritten(lines[i], req))
  }

  /** The requested keys that have a line. */
  function Updated(lines: seq<string>, req: Request): set<Key> {
    set line | line in lines && WrittenKey(line).Some? && Wanted(req, WrittenKey(line).value).Some? :: WrittenKey(line).value
  }

  function Addition(k: Key, req: Request, updated: set<Key>): seq<string> {
    if Wanted(req, k).Some? && k !in updated then [Directive(k, Wanted(req, k).value)] else []
  }

  function Additions(req: Request, updated: set<Key>): seq<string> {
    Addition(Port, req, updated) + Addition(PermitRootLogin, req, updated)
    + Addition(PasswordAuth, req, updated) + Addition(PubkeyAuth, req, updated)
  }

  const MARKER := "# Added by Cloudnan"

  function NewLines(lines: seq<string>, req: Request): seq<string> {
    var additions := Additions(req, Updated(lines, req));
    Mapped(lines, req) + if additions == [] then [] else ["", MARKER] + additions
  }

  /** The file after an update. */
  function Rewrite(content: string, req: Request): string {
    Join(NewLines(Split(content, '\n'), req), "\n")
  }

  // ---------- reading ----------

  /** The value that a line sets for a key. */
  function Heard(k: Key, line: string): Option<Value> {
    var s := ReadSetting(line);
    if s.Some? && s.value.0 == k then Parse(k, s.value.1) else None
  }

  /** The last line that sets the key wins. */
  function Last(k: Key, v: Value, lines: seq<string>): Value
    decreases |lines|
  {
    if lines == [] then v
    else
      var h := Heard(k, lines[0]);
      Last(k, if h.Some? then h.value else v, lines[1..])
  }

  /** The first line that sets the key wins, which is how sshd reads its file. */
  function First(k: Key, lines: seq<string>): Option<Value> {
    if lines == [] then None
    else
      var h := Heard(k, lines[0]);
      if h.Some? then h else First(k, lines[1..])
  }

  function Apply(c: Config, line: string): Config {
    match ReadSetting(line)
    case Some((Port, text)) =>
      var n := Atoi(text);
      if n.Some? then c.(port := n.value) else c
    case Some((PermitRootLogin, text)) => c.(permitRootLogin := ParseBoolValue(text))
    case Some((PasswordAuth, text)) => c.(passwordAuth := ParseBoolValue(text))
    case Some((PubkeyAuth, text)) => c.(pubkeyAuth := ParseBoolValue(text))
    case None => c
  }

  function ApplyAll(c: Config, lines: seq<string>): Config
    decreases |lines|
  {
    if lines == [] then c else ApplyAll(Apply(c, lines[0]), lines[1..])
  }

  lemma {:induction false} ApplyAllIsLast(c: Config, lines: seq<string>, k: Key)
    ensures Lookup(ApplyAll(c, lines), k) == Last(k, Lookup(c, k), lines)
    decreases |lines|
  {
    if lines != [] {
      ApplyAllIsLast(Apply(c, lines[0]), lines[1..], k);
    }
  }

  // ---------- words in lines ----------

  predicate IsWord(s: string) {
    s != "" && forall i :: 0 <= i < |s| ==> !IsSpace(s[i])
  }

  lemma {:induction false} TwoFields(a: string, b: string)
    requires IsWord(a) && IsWord(b)
    ensures TrimSpace(a + " " + b) == a + " " + b
    ensures Fields(a + " " + b) == [a, b]
  {
    var s := a + " " + b;
    assert s[0] == a[0] && s[|s| - 1] == b[|b| - 1];
    WordLenIs(a, " " + b);
    assert s == a + (" " + b);
    assert s[..|a|] == a && s[|a|..] == " " + b;
    assert (" " + b)[1..] == b && TrimLeft(" " + b) == TrimLeft(b) == b;
    WordLenIs(b, "");
    assert b + "" == b && b[..|b|] == b && b[|b|..] == "";
    assert Fields("") == [];
    assert Fields(" " + b) == [b];
  }

  lemma {:induction false} WordLenIs(w: string, rest: string)
    requires forall i :: 0 <= i < |w| ==> !IsSpace(w[i])
    requires rest == "" || IsSpace(rest[0])
    ensures WordLen(w + rest) == |w|
  {
    if w == "" {
      assert w + rest == rest;
    } else {
      assert (w + rest)[1..] == w[1..] + rest;
      WordLenIs(w[1..], rest);
    }
  }

  lemma {:induction false} DigitsWord(n: nat)
    ensures IsWord(Digits(n, Decimal)) && '\n' !in Digits(n, Decimal)
  {
    DigitsReadBack(n, Decimal);
    var d := Digits(n, Decimal);
    assert forall i :: 0 <= i < |d| ==> IsDigit(d[i], Decimal);
  }

  lemma {:induction false} MinusWord(d: string)
    requires IsWord(d) && '\n' !in d
    ensures IsWord("-" + d) && '\n' !in "-" + d
  {
  }

  lemma {:induction false} RenderIsWord(v: Value)
    ensures IsWord(Render(v)) && '\n' !in Render(v)
  {
    if v.Number? {
      var m: int := v.n;
      DigitsWord(if m < 0 then -m else m);
      MinusWord(Digits(if m < 0 then -m else m, Decimal));
    }
  }

  lemma {:induction false} RenderReadsBack(k: Key, v: Value)
    requires k.Port? <==> v.Number?
    ensures Parse(k, Render(v)) == Some(v)
  {
    if k.Port? {
      ItoaReadsBack(v.n);
    } else {
      assert ToLower("yes") == "yes" && ToLower("no") == "no";
    }
  }

  lemma {:induction false} TitleIsWord(k: Key)
    ensures IsWord(Title(k)) && '\n' !in Title(k)
  {
  }

  lemma {:induction false} TitleLower(k: Key)
    ensures KeyNamed(ToLower(Title(k))) == Some(k)
  {
    match k
    case Port => assert ToLower("Port") == "port";
    case PermitRootLogin => assert ToLower("PermitRootLogin") == "permitrootlogin";
    case PasswordAuth => PasswordLower();
    case PubkeyAuth => PubkeyLower();
  }

  lemma {:induction false} PasswordLower()
    ensures ToLower("PasswordAuthentication") == "passwordauthentication"
  {
  }

  lemma {:induction false} PubkeyLower()
    ensures ToLower("PubkeyAuthentication") == "pubkeyauthentication"
  {
  }

  predicate Typed(k: Key, v: Value) {
    k.Port? <==> v.Number?
  }

  /** A directive is an active line that both the writer and the reader recognise. */
  lemma {:induction false} DirectiveReads(k: Key, v: Value)
    requires Typed(k, v)
    ensures WrittenKey(Directive(k, v)) == Some(k)
    ensures forall j :: Heard(j, Directive(k, v)) == if j == k then Some(v) else None
    ensures '\n' !in Directive(k, v)
  {
    TitleIsWord(k);
    TitleLower(k);
    RenderIsWord(v);
    TwoFields(Title(k), Render(v));
    RenderReadsBack(k, v);
    assert Title(k)[0] != '#';
  }

  lemma {:induction false} FirstField(w: string, rest: string)
    requires IsWord(w) && (rest == "" || IsSpace(rest[0]))
    ensures |Fields(w + rest)| >= 1 && Fields(w + rest)[0] == w
  {
    WordLenIs(w, rest);
    assert (w + rest)[0] == w[0] && (w + rest)[..|w|] == w;
  }

  /** A comment of one word and more, after the mark and a space. */
  lemma {:induction false} CommentKey(w: string, rest: string)
    requires IsWord(w) && rest != "" && IsSpace(rest[0]) && !IsSpace(rest[|rest| - 1])
    ensures WrittenKey("# " + (w + rest)) == KeyNamed(ToLower(w))
  {
    var (line, text) := ("# " + (w + rest), w + rest);
    assert text[0] == w[0] && text[|text| - 1] == rest[|rest| - 1];
    Trimmed(line);
    assert line[1..] == " " + text;
    Trimmed(text);
    FirstField(w, rest);
  }

  lemma {:induction false} MarkerParts()
    ensures MARKER == "# " + ("Added" + " by Cloudnan")
  {
  }

  lemma {:induction false} MarkerWord()
    ensures IsWord("Added")
    ensures var rest := " by Cloudnan"; rest != "" && IsSpace(rest[0]) && !IsSpace(rest[|rest| - 1])
  {
  }

  lemma {:induction false} MarkerSilent()
    ensures WrittenKey(MARKER) == None
  {
    MarkerParts();
    MarkerWord();
    var (w, rest) := ("Added", " by Cloudnan");
    CommentKey(w, rest);
    NoKey(w);
  }

  /** No keyword has five letters. */
  lemma {:induction false} NoKey(w: string)
    requires |w| == 5
    ensures KeyNamed(ToLower(w)) == None
  {
    assert |ToLower(w)| == 5;
  }

  lemma {:induction false} MarkerIsLine()
    ensures '\n' !in MARKER
  {
  }

  lemma {:induction false} EmptySilent()
    ensures WrittenKey("") == None
  {
    assert TrimSpace("") == "" && Fields("") == [];
  }

  // ---------- what an update does to lines ----------

  lemma {:induction false} RewrittenStays(line: string, req: Request)
    ensures Rewritten(Rewritten(line, req), req) == Rewritten(line, req)
  {
    var k := WrittenKey(line);
    if k.Some? && Wanted(req, k.value).Some? {
      DirectiveReads(k.value, Wanted(req, k.value).value);
    }
  }

  /** Lines that are a directive for a requested key. */
  ghost predicate IsAddition(line: string, req: Request) {
    exists k :: Wanted(req, k).Some? && line == Directive(k, Wanted(req, k).value)
  }

  lemma {:induction false} AdditionsAre(req: Request, updated: set<Key>)
    ensures forall line :: line in Additions(req, updated) ==> IsAddition(line, req)
    ensures forall k :: Wanted(req, k).Some? && k !in updated ==>
      Directive(k, Wanted(req, k).value) in Additions(req, updated)
    ensures (forall k :: Wanted(req, k).Some? ==> k in updated) ==> Additions(req, updated) == []
  {
    forall k | Wanted(req, k).Some? && k !in updated
      ensures Directive(k, Wanted(req, k).value) in Additions(req, updated)
    {
      assert Directive(k, Wanted(req, k).value) in Addition(k, req, updated);
    }
  }

  /** Where the lines after an update come from. */
  ghost predicate IsNewLine(lines: seq<string>, req: Request, line: string) {
    || (exists i :: 0 <= i < |lines| && line == Rewritten(lines[i], req))
    || line == ""
    || line == MARKER
    || IsAddition(line, req)
  }

  lemma {:induction false} NewLinesAre(lines: seq<string>, req: Request, line: string)
    requires line in NewLines(lines, req)
    ensures IsNewLine(lines, req, line)
  {
    AdditionsAre(req, Updated(lines, req));
    if line in Mapped(lines, req) {
      var i :| 0 <= i < |lines| && line == Mapped(lines, req)[i];
      assert line == Rewritten(lines[i], req);
    }
  }

  /** Every line after an update is one that a further update leaves. */
  lemma {:induction false} NewLineStays(lines: seq<string>, req: Request, line: string)
    requires line in NewLines(lines, req)
    ensures Rewritten(line, req) == line
    ensures (forall l :: l in lines ==> '\n' !in l) ==> '\n' !in line
  {
    NewLinesAre(lines, req, line);
    if i :| 0 <= i < |lines| && line == Rewritten(lines[i], req) {
      RewrittenStays(lines[i], req);
      RewrittenLine(lines[i], req);
    } else if IsAddition(line, req) {
      AdditionReads(req, line);
    } else {
      MarkerSilent();
      MarkerIsLine();
      EmptySilent();
    }
  }

  lemma {:induction false} AdditionReads(req: Request, line: string)
    requires IsAddition(line, req)
    ensures Rewritten(line, req) == line && '\n' !in line
    ensures forall k :: Wanted(req, k).None? ==> Heard(k, line) == None
  {
    var k :| Wanted(req, k).Some? && line == Directive(k, Wanted(req, k).value);
    DirectiveReads(k, Wanted(req, k).value);
  }

  lemma {:induction false} RewrittenLine(line: string, req: Request)
    ensures '\n' !in line ==> '\n' !in Rewritten(line, req)
  {
    var k := WrittenKey(line);
    if k.Some? && Wanted(req, k.value).Some? {
      DirectiveReads(k.value, Wanted(req, k.value).value);
    }
  }

  /** Every requested key has its directive. */
  lemma {:induction false} DirectivePresent(lines: seq<string>, req: Request, k: Key)
    requires Wanted(req, k).Some?
    ensures Directive(k, Wanted(req, k).value) in NewLines(lines, req)
  {
    AdditionsAre(req, Updated(lines, req));
    if k in Updated(lines, req) {
      var line :| line in lines && WrittenKey(line) == Some(k);
      var i :| 0 <= i < |lines| && lines[i] == line;
      assert Mapped(lines, req)[i] == Directive(k, Wanted(req, k).value);
      assert NewLines(lines, req)[i] == Mapped(lines, req)[i];
    }
  }

  lemma {:induction false} KeyUpdated(lines: seq<string>, req: Request, k: Key)
    requires Wanted(req, k).Some?
    ensures k in Updated(NewLines(lines, req), req)
  {
    DirectivePresent(lines, req, k);
    DirectiveReads(k, Wanted(req, k).value);
  }

  lemma {:induction false} MappedStays(lines: seq<string>, req: Request)
    ensures Mapped(NewLines(lines, req), req) == NewLines(lines, req)
  {
    var new' := NewLines(lines, req);
    forall i | 0 <= i < |new'|
      ensures Mapped(new', req)[i] == new'[i]
    {
      NewLineStays(lines, req, new'[i]);
    }
  }

  lemma {:induction false} NewLinesStay(lines: seq<string>, req: Request)
    ensures NewLines(NewLines(lines, req), req) == NewLines(lines, req)
  {
    MappedStays(lines, req);
    forall k | Wanted(req, k).Some?
      ensures k in Updated(NewLines(lines, req), req)
    {
      KeyUpdated(lines, req, k);
    }
    AdditionsAre(req, Updated(NewLines(lines, req), req));
  }

  /** The text of an update splits into the lines that were written. */
  lemma {:induction false} LinesOfRewrite(content: string, req: Request)
    ensures Split(Rewrite(content, req), '\n') == NewLines(Split(content, '\n'), req)
  {
    var lines := Split(content, '\n');
    JoinSplit(content, '\n');
    var new' := NewLines(lines, req);
    assert forall l :: l in lines ==> '\n' !in l;
    forall i | 0 <= i < |new'|
      ensures '\n' !in new'[i]
    {
      NewLineStays(lines, req, new'[i]);
    }
    SplitJoin(new', '\n');
  }

  /** Updating twice is updating once. */
  lemma {:induction false} RewriteIdempotent(content: string, req: Request)
    ensures Rewrite(Rewrite(content, req), req) == Rewrite(content, req)
  {
    LinesOfRewrite(content, req);
    NewLinesStay(Split(content, '\n'), req);
  }

  /** After an update, a requested key has an active line, and all its active lines say the same. */
  lemma {:induction false} RequestedLines(content: string, req: Request, k: Key)
    requires Wanted(req, k).Some?
    ensures var new' := Split(Rewrite(content, req), '\n');
      && (exists line :: line in new' && Heard(k, line) == Wanted(req, k))
      && (forall line :: line in new' && ReadSetting(line).Some? && ReadSetting(line).value.0 == k ==>
            Heard(k, line) == Wanted(req, k))
  {
    var lines := Split(content, '\n');
    LinesOfRewrite(content, req);
    DirectivePresent(lines, req, k);
    DirectiveReads(k, Wanted(req, k).value);
    forall line | line in NewLines(lines, req) && ReadSetting(line).Some? && ReadSetting(line).value.0 == k
      ensures Heard(k, line) == Wanted(req, k)
    {
      NewLineStays(lines, req, line);
      ReadersAgree(line);
    }
  }

  // ---------- reading after writing ----------

  lemma {:induction false} LastOfSame(k: Key, v0: Value, v: Value, lines: seq<string>)
    requires forall line :: line in lines ==> Heard(k, line) in {None, Some(v)}
    requires v0 == v || exists line :: line in lines && Heard(k, line) == Some(v)
    ensures Last(k, v0, lines) == v
    decreases |lines|
  {
    if lines != [] {
      var h := Heard(k, lines[0]);
      assert lines[0] in lines;
      LastOfSame(k, if h.Some? then h.value else v0, v, lines[1..]);
    }
  }

  lemma {:induction false} FirstOfSame(k: Key, v: Value, lines: seq<string>)
    requires forall line :: line in lines ==> Heard(k, line) in {None, Some(v)}
    requires exists line :: line in lines && Heard(k, line) == Some(v)
    ensures First(k, lines) == Some(v)
  {
    if Heard(k, lines[0]).None? {
      FirstOfSame(k, v, lines[1..]);
    } else {
      assert lines[0] in lines;
    }
  }

  lemma {:induction false} SameHeard(k: Key, v: Value, a: seq<string>, b: seq<string>, silent: seq<string>)
    requires |a| == |b| && forall i :: 0 <= i < |a| ==> Heard(k, a[i]) == Heard(k, b[i])
    requires forall line :: line in silent ==> Heard(k, line) == None
    ensures Last(k, v, a) == Last(k, v, b + silent)
    ensures First(k, a) == First(k, b + silent)
    decreases |a| + |silent|
  {
    if a != [] {
      assert (b + silent)[1..] == b[1..] + silent;
      var h := Heard(k, a[0]);
      SameHeard(k, if h.Some? then h.value else v, a[1..], b[1..], silent);
    } else if silent != [] {
      assert b + silent == silent && [] + silent[1..] == silent[1..];
      assert silent[0] in silent;
      SameHeard(k, v, [], [], silent[1..]);
    }
  }

  lemma {:induction false} OthersHeard(line: string, req: Request, k: Key)
    requires Wanted(req, k).None?
    ensures Heard(k, Rewritten(line, req)) == Heard(k, line)
  {
    ReadersAgree(line);
    var j := WrittenKey(line);
    if j.Some? && Wanted(req, j.value).Some? {
      DirectiveReads(j.value, Wanted(req, j.value).value);
    }
  }

  lemma {:induction false} AddedSilent(req: Request, updated: set<Key>, k: Key)
    requires Wanted(req, k).None?
    ensures forall line :: line in ["", MARKER] + Additions(req, updated) ==> Heard(k, line) == None
  {
    forall line | line in ["", MARKER] + Additions(req, updated)
      ensures Heard(k, line) == None
    {
      if line in Additions(req, updated) {
        AdditionsAre(req, updated);
        AdditionReads(req, line);
      } else {
        MarkerSilent();
        EmptySilent();
        ReadersAgree(line);
      }
    }
  }

  /** Reading after an update: a requested setting has the requested value, for a reader that takes the
      last line and for one that takes the first; any other setting reads as before. */
  lemma {:induction false} UpdateThenRead(content: string, req: Request, k: Key)
    ensures var (old', new') := (Split(content, '\n'), Split(Rewrite(content, req), '\n'));
      && Lookup(ApplyAll(DEFAULT, new'), k) == Asked(req, k, Lookup(ApplyAll(DEFAULT, old'), k))
      && First(k, new') == (if Wanted(req, k).Some? then Wanted(req, k) else First(k, old'))
  {
    var (old', new') := (Split(content, '\n'), Split(Rewrite(content, req), '\n'));
    ApplyAllIsLast(DEFAULT, old', k);
    ApplyAllIsLast(DEFAULT, new', k);
    if Wanted(req, k).Some? {
      RequestedLines(content, req, k);
      LastOfSame(k, Lookup(DEFAULT, k), Wanted(req, k).value, new');
      FirstOfSame(k, Wanted(req, k).value, new');
    } else {
      LinesOfRewrite(content, req);
      var updated := Updated(old', req);
      forall i | 0 <= i < |old'|
        ensures Heard(k, old'[i]) == Heard(k, Mapped(old', req)[i])
      {
        OthersHeard(old'[i], req, k);
      }
      AddedSilent(req, updated, k);
      var added := if Additions(req, updated) == [] then [] else ["", MARKER] + Additions(req, updated);
      SameHeard(k, Lookup(DEFAULT, k), old', Mapped(old', req), added);
    }
  }

  // ---------- the scanner's limit ----------

  /** bufio.Scanner gives up at a line that is longer. */
  const MAX_LINE := 65535

  predicate LinesFit(lines: seq<string>) {
    forall i :: 0 <= i < |lines| ==> |lines[i]| <= MAX_LINE
  }

  /** The lines before the first one that is too long. */
  function Scanned(lines: seq<string>): seq<string> {
    if lines == [] || |lines[0]| > MAX_LINE then [] else [lines[0]] + Scanned(lines[1..])
  }

  lemma {:induction false} AllScanned(lines: seq<string>)
    ensures LinesFit(lines) <==> Scanned(lines) == lines
    ensures |Scanned(lines)| <= |lines|
  {
    if lines != [] && |lines[0]| <= MAX_LINE {
      AllScanned(lines[1..]);
      assert lines == [lines[0]] + lines[1..];
      if LinesFit(lines) {
        assert forall i :: 0 <= i < |lines[1..]| ==> lines[1..][i] == lines[i + 1];
      } else {
        var i :| 0 <= i < |lines| && |lines[i]| > MAX_LINE;
        assert lines[1..][i - 1] == lines[i];
      }
    }
  }

  function Pow10(k: nat): nat {
    if k == 0 then 1 else 10 * Pow10(k - 1)
  }

  lemma {:induction false} DigitsShort(n: nat, k: nat)
    requires k > 0 && n < Pow10(k)
    ensures |Digits(n, Decimal)| <= k
    decreases k
  {
    if n >= 10 {
      DigitsShort(n / 10, k - 1);
    }
  }

  lemma {:induction false} NineteenDigits()
    ensures Pow10(19) > INT64_LIMIT
  {
    assert Pow10(5) == 100_000;
    assert Pow10(10) == 10_000_000_000;
    assert Pow10(15) == 1_000_000_000_000_000;
  }

  lemma {:induction false} RenderShort(v: Value)
    ensures |Render(v)| <= 20
  {
    if v.Number? {
      NineteenDigits();
      var m: int := v.n;
      DigitsShort(if m < 0 then -m else m, 19);
    }
  }

  lemma {:induction false} DirectiveFits(k: Key, v: Value)
    ensures |Directive(k, v)| <= MAX_LINE
  {
    RenderShort(v);
    assert |Title(k)| <= 22;
  }

  lemma {:induction false} RewrittenFits(line: string, req: Request)
    requires |line| <= MAX_LINE
    ensures |Rewritten(line, req)| <= MAX_LINE
  {
    var k := WrittenKey(line);
    if k.Some? && Wanted(req, k.value).Some? {
      DirectiveFits(k.value, Wanted(req, k.value).value);
    }
  }

  lemma {:induction false} NewLinesFit(lines: seq<string>, req: Request)
    requires LinesFit(lines)
    ensures LinesFit(NewLines(lines, req))
  {
    var new' := NewLines(lines, req);
    forall i | 0 <= i < |new'|
      ensures |new'[i]| <= MAX_LINE
    {
      var line := new'[i];
      NewLinesAre(lines, req, line);
      if j :| 0 <= j < |lines| && line == Rewritten(lines[j], req) {
        RewrittenFits(lines[j], req);
      } else if IsAddition(line, req) {
        var k :| Wanted(req, k).Some? && line == Directive(k, Wanted(req, k).value);
        DirectiveFits(k, Wanted(req, k).value);
      } else {
        assert |line| <= |MARKER| == 19;
      }
    }
  }

  /** The settings that the reader finds in a file. */
  function Settings(content: string): Config {
    ApplyAll(DEFAULT, Scanned(Split(content, '\n')))
  }

  /** Reading back after an update: the settings that were asked for have their values and the others
      theirs from before, as long as the reader gets through the file at all; and an update never
      writes a line that stops it. */
  lemma {:induction false} SetThenGet(content: string, req: Request)
    requires LinesFit(Split(content, '\n'))
    ensures LinesFit(Split(Rewrite(content, req), '\n'))
    ensures forall k :: Lookup(Settings(Rewrite(content, req)), k) == Asked(req, k, Lookup(Settings(content), k))
  {
    LinesOfRewrite(content, req);
    NewLinesFit(Split(content, '\n'), req);
    AllScanned(Split(content, '\n'));
    AllScanned(Split(Rewrite(content, req), '\n'));
    forall k
      ensures Lookup(Settings(Rewrite(content, req)), k) == Asked(req, k, Lookup(Settings(content), k))
    {
      UpdateThenRead(content, req, k);
    }
  }
}
