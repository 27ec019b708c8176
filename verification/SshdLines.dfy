/** The lines of sshd_config in terms of their text: which lines an update rewrites and a reader reads,
    what is written, and that all else stays. */
module SshdLines {
  import opened Wrappers
  import opened Strings
  import opened Numbers
  import opened Sshd

  predicate Blanks(s: string) {
    forall i :: 0 <= i < |s| ==> IsSpace(s[i])
  }

  /** The keyword in lower case. */
  function Keyword(k: Key): string {
    match k
    case Port => "port"
    case PermitRootLogin => "permitrootlogin"
    case PasswordAuth => "passwordauthentication"
    case PubkeyAuth => "pubkeyauthentication"
  }

  /** What follows a word ends it. */
  predicate EndsWord(rest: string) {
    rest == "" || IsSpace(rest[0])
  }

  // ---------- trimming and fields ----------

  lemma {:induction false} TrimLeftOf(a: string, t: string)
    requires Blanks(a) && (t == "" || !IsSpace(t[0]))
    ensures TrimLeft(a + t) == t
  {
    if a == "" {
      assert a + t == t;
    } else {
      assert (a + t)[1..] == a[1..] + t;
      TrimLeftOf(a[1..], t);
    }
  }

  lemma {:induction false} TrimLeftCut(s: string) returns (a: string)
    ensures Blanks(a) && s == a + TrimLeft(s)
    ensures TrimLeft(s) != "" ==> !IsSpace(TrimLeft(s)[0])
  {
    if s != "" && IsSpace(s[0]) {
      var b := TrimLeftCut(s[1..]);
      a := [s[0]] + b;
    } else {
      a := "";
    }
  }

  lemma {:induction false} TrimRightCut(s: string)
    ensures EndsWord(s[|TrimRight(s)|..])
    decreases |s|
  {
    if s != "" && IsSpace(s[|s| - 1]) {
      TrimRightCut(s[..|s| - 1]);
      var n := |TrimRight(s)|;
      if n < |s| - 1 {
        assert s[n..][0] == s[..|s| - 1][n..][0];
      }
    }
  }

  /** Trimming around a word. */
  lemma {:induction false} TrimAround(a: string, w: string, rest: string)
    requires Blanks(a) && IsWord(w) && EndsWord(rest)
    ensures TrimSpace(a + w + rest) == w + TrimRight(rest) && EndsWord(TrimRight(rest))
  {
    assert a + w + rest == a + (w + rest);
    assert (w + rest)[0] == w[0];
    TrimLeftOf(a, w + rest);
    TrimEnd(w, rest);
  }

  lemma {:induction false} FirstWord(s: string)
    requires s != "" && !IsSpace(s[0])
    ensures IsWord(s[..WordLen(s)]) && EndsWord(s[WordLen(s)..])
  {
    WordLenMeans(s);
  }

  lemma {:induction false} WordLenMeans(s: string)
    ensures forall i :: 0 <= i < WordLen(s) ==> !IsSpace(s[i])
    ensures WordLen(s) < |s| ==> IsSpace(s[WordLen(s)])
  {
    if s != "" && !IsSpace(s[0]) {
      WordLenMeans(s[1..]);
      assert forall i :: 0 < i < WordLen(s) ==> s[i] == s[1..][i - 1];
    }
  }

  // ---------- lines that are rewritten ----------

  /** The line is the keyword, in any case, commented out or not, and whatever follows it as a word of its
      own. */
  ghost predicate NamesKey(line: string, k: Key) {
    exists a, b, w, rest :: IsKeyLine(line, k, a, b, w, rest) || IsKeyComment(line, k, a, b, w, rest)
  }

  ghost predicate IsKeyLine(line: string, k: Key, a: string, b: string, w: string, rest: string) {
    line == a + w + rest && b == "" && Blanks(a) && ToLower(w) == Keyword(k) && EndsWord(rest)
  }

  ghost predicate IsKeyComment(line: string, k: Key, a: string, b: string, w: string, rest: string) {
    line == a + "#" + b + w + rest && Blanks(a) && Blanks(b) && ToLower(w) == Keyword(k) && EndsWord(rest)
  }

  lemma {:induction false} KeywordIsWord(w: string, k: Key)
    requires ToLower(w) == Keyword(k)
    ensures IsWord(w) && w[0] != '#' && KeyNamed(ToLower(w)) == Some(k)
  {
    assert |w| == |Keyword(k)| > 0;
    forall i | 0 <= i < |w|
      ensures !IsSpace(w[i]) && w[i] != '#'
    {
      KeywordLetters(k, i);
      assert ToLower(w)[i] == ToLowerByte(w[i]);
    }
  }

  lemma {:induction false} KeywordLetters(k: Key, i: nat)
    requires i < |Keyword(k)|
    ensures 'a' <= Keyword(k)[i] <= 'z'
  {
  }

  lemma {:induction false} KeyIs(word: string)
    ensures forall k :: KeyNamed(word) == Some(k) <==> word == Keyword(k)
  {
  }

  lemma {:induction false} KeyLineWritten(line: string, k: Key, a: string, b: string, w: string, rest: string)
    requires IsKeyLine(line, k, a, b, w, rest)
    ensures WrittenKey(line) == Some(k)
  {
    KeywordIsWord(w, k);
    TrimAround(a, w, rest);
    FirstField(w, TrimRight(rest));
    assert (w + TrimRight(rest))[0] == w[0];
  }

  lemma {:induction false} CommentTrimmed(a: string, b: string, w: string, rest: string)
    requires Blanks(a) && IsWord(w) && EndsWord(rest)
    ensures TrimSpace(a + "#" + b + w + rest) == "#" + (b + w + TrimRight(rest)) && EndsWord(TrimRight(rest))
  {
    var t := "#" + b + w;
    assert a + "#" + b + w + rest == a + (t + rest) && (t + rest)[0] == '#';
    TrimLeftOf(a, t + rest);
    assert t[|t| - 1] == w[|w| - 1];
    TrimEnd(t, rest);
    TrimAround("", w, rest);
    assert t + TrimRight(rest) == "#" + (b + w + TrimRight(rest));
  }

  lemma {:induction false} KeyCommentWritten(line: string, k: Key, a: string, b: string, w: string, rest: string)
    requires IsKeyComment(line, k, a, b, w, rest)
    ensures WrittenKey(line) == Some(k)
  {
    KeywordIsWord(w, k);
    CommentTrimmed(a, b, w, rest);
    var u := b + w + TrimRight(rest);
    assert ("#" + u)[1..] == u;
    TrimAround(b, w, TrimRight(rest));
    FirstField(w, TrimRight(TrimRight(rest)));
  }

  /** The first field of a trimmed text. */
  lemma {:induction false} FieldsFirst(t: string)
    requires |Fields(t)| > 0 && (t == "" || !IsSpace(t[0]))
    ensures t != "" && IsWord(Fields(t)[0]) && Fields(t)[0] <= t && EndsWord(t[|Fields(t)[0]|..])
  {
    if t != "" {
      FirstWord(t);
    }
  }

  lemma {:induction false} TrimCut(s: string) returns (a: string, c: string)
    ensures Blanks(a) && s == a + TrimSpace(s) + c && EndsWord(c)
    ensures TrimSpace(s) != "" ==> !IsSpace(TrimSpace(s)[0])
  {
    a := TrimLeftCut(s);
    c := RightCut(TrimLeft(s));
  }

  lemma {:induction false} RightCut(t: string) returns (c: string)
    ensures t == TrimRight(t) + c && EndsWord(c)
    ensures TrimRight(t) != "" ==> TrimRight(t)[0] == t[0]
  {
    TrimRightCut(t);
    c := t[|TrimRight(t)|..];
  }

  lemma {:induction false} WordBefore(rest: string, c: string)
    requires EndsWord(rest) && EndsWord(c)
    ensures EndsWord(rest + c)
  {
    assert rest == "" ==> rest + c == c;
  }

  /** The text names the key by its first field. */
  predicate FirstFieldIs(t: string, k: Key) {
    |Fields(t)| > 0 && ToLower(Fields(t)[0]) == Keyword(k)
  }

  lemma {:induction false} LineNames(line: string, k: Key, a: string, t: string, c: string)
    requires line == a + t + c && Blanks(a) && EndsWord(c) && (t == "" || !IsSpace(t[0])) && FirstFieldIs(t, k)
    ensures NamesKey(line, k)
  {
    FieldsFirst(t);
    var w := Fields(t)[0];
    WordBefore(t[|w|..], c);
    assert t == w + t[|w|..];
    assert line == a + w + (t[|w|..] + c);
    assert IsKeyLine(line, k, a, "", w, t[|w|..] + c);
  }

  lemma {:induction false} CommentNames(line: string, k: Key, a: string, u: string, c: string)
    requires line == a + ("#" + u) + c && Blanks(a) && EndsWord(c) && FirstFieldIs(TrimSpace(u), k)
    ensures NamesKey(line, k)
  {
    var b, d := TrimCut(u);
    var v := TrimSpace(u);
    FieldsFirst(v);
    var w := Fields(v)[0];
    WordBefore(v[|w|..], d);
    WordBefore(v[|w|..] + d, c);
    assert v == w + v[|w|..];
    Regroup(a, "#" + u, c, b, w, v[|w|..], d);
    assert IsKeyComment(line, k, a, b, w, v[|w|..] + d + c);
  }

  lemma {:induction false} KeyFields(line: string, k: Key)
    requires WrittenKey(line) == Some(k)
    ensures var t := TrimSpace(line); FirstFieldIs(if "#" <= t then TrimSpace(t[1..]) else t, k)
  {
    var t := TrimSpace(line);
    var u := if "#" <= t then TrimSpace(t[1..]) else t;
    KeyIs(ToLower(Fields(u)[0]));
  }

  lemma {:induction false} WrittenNames(line: string, k: Key)
    requires WrittenKey(line) == Some(k)
    ensures NamesKey(line, k)
  {
    var a, c := TrimCut(line);
    var t := TrimSpace(line);
    KeyFields(line, k);
    if "#" <= t {
      assert t == "#" + t[1..];
      CommentNames(line, k, a, t[1..], c);
    } else {
      LineNames(line, k, a, t, c);
    }
  }

  lemma {:induction false} Regroup(a: string, t: string, c: string, b: string, w: string, r: string, d: string)
    requires t == "#" + (b + (w + r) + d)
    ensures a + t + c == a + "#" + b + w + (r + d + c)
  {
  }

  /** An update rewrites exactly the lines that name a requested key. */
  lemma {:induction false} WrittenExactly(line: string, k: Key)
    ensures WrittenKey(line) == Some(k) <==> NamesKey(line, k)
  {
    if WrittenKey(line) == Some(k) {
      WrittenNames(line, k);
    }
    if NamesKey(line, k) {
      var a, b, w, rest :| IsKeyLine(line, k, a, b, w, rest) || IsKeyComment(line, k, a, b, w, rest);
      if IsKeyLine(line, k, a, b, w, rest) {
        KeyLineWritten(line, k, a, b, w, rest);
      } else {
        KeyCommentWritten(line, k, a, b, w, rest);
      }
    }
  }

  // ---------- lines that are read ----------

  /** The line is the keyword, in any case, and after blanks the text as the next word. */
  ghost predicate Says(line: string, k: Key, text: string) {
    exists a, w, b, rest :: IsSetting(line, k, text, a, w, b, rest)
  }

  ghost predicate IsSetting(line: string, k: Key, text: string, a: string, w: string, b: string, rest: string) {
    && line == a + w + b + text + rest
    && Blanks(a) && ToLower(w) == Keyword(k) && b != "" && Blanks(b) && IsWord(text) && EndsWord(rest)
  }

  lemma {:induction false} TwoFirst(w: string, b: string, text: string, rest: string)
    requires IsWord(w) && b != "" && Blanks(b) && IsWord(text) && EndsWord(rest)
    ensures var f := Fields(w + b + text + rest); |f| >= 2 && f[0] == w && f[1] == text
  {
    var (s, r) := (w + b + text + rest, b + text + rest);
    assert s == w + r && r[0] == b[0] && s[0] == w[0];
    WordLenIs(w, r);
    assert s[..|w|] == w && s[|w|..] == r;
    SecondFirst(b, text, rest);
  }

  lemma {:induction false} SecondFirst(b: string, text: string, rest: string)
    requires Blanks(b) && IsWord(text) && EndsWord(rest)
    ensures var f := Fields(b + text + rest); |f| >= 1 && f[0] == text
  {
    assert b + text + rest == b + (text + rest);
    assert (text + rest)[0] == text[0];
    TrimLeftOf(b, text + rest);
    WordLenIs(text, rest);
    assert (text + rest)[..|text|] == text;
  }

  lemma {:induction false} SettingRead(line: string, k: Key, text: string, a: string, w: string, b: string, rest: string)
    requires IsSetting(line, k, text, a, w, b, rest)
    ensures ReadSetting(line) == Some((k, text))
  {
    KeywordIsWord(w, k);
    var t := w + b + text;
    assert line == a + (t + rest) && (t + rest)[0] == w[0];
    TrimLeftOf(a, t + rest);
    assert t[|t| - 1] == text[|text| - 1];
    TrimEnd(t, rest);
    TrimAround("", text, rest);
    TwoFirst(w, b, text, TrimRight(rest));
    assert (t + TrimRight(rest))[0] == w[0];
  }

  lemma {:induction false} FieldsTwo(t: string)
    requires |Fields(t)| >= 2 && t != "" && !IsSpace(t[0])
    ensures Fields(t)[0] <= t
    ensures var w := Fields(t)[0]; Fields(t[|w|..]) == Fields(t)[1..] && EndsWord(t[|w|..])
  {
    FirstWord(t);
    assert TrimLeft(t) == t;
  }

  lemma {:induction false} SecondCut(r: string) returns (b: string, rest: string)
    requires |Fields(r)| > 0 && EndsWord(r)
    ensures b != "" && Blanks(b) && r == b + Fields(r)[0] + rest
    ensures IsWord(Fields(r)[0]) && EndsWord(rest)
  {
    b := TrimLeftCut(r);
    var t := TrimLeft(r);
    FieldsOfTrimmed(r);
    FieldsFirst(t);
    rest := t[|Fields(t)[0]|..];
    assert t == Fields(t)[0] + rest;
    assert b == "" ==> r == t;
  }

  lemma {:induction false} FieldsOfTrimmed(r: string)
    ensures Fields(r) == Fields(TrimLeft(r))
  {
    var a := TrimLeftCut(r);
    TrimLeftOf("", TrimLeft(r));
    assert "" + TrimLeft(r) == TrimLeft(r);
  }

  lemma {:induction false} ReadSays(line: string, k: Key, text: string)
    requires ReadSetting(line) == Some((k, text))
    ensures Says(line, k, text)
  {
    var a, c := TrimCut(line);
    var t := TrimSpace(line);
    FieldsTwo(t);
    var w := Fields(t)[0];
    KeyIs(ToLower(w));
    var b, rest := SecondCut(t[|w|..]);
    WordBefore(rest, c);
    SettingRegroup(a, t, c, w, b, text, rest);
    assert IsSetting(line, k, text, a, w, b, rest + c);
  }

  lemma {:induction false} SettingRegroup(
    a: string, t: string, c: string, w: string, b: string, text: string, rest: string)
    requires w <= t && t[|w|..] == b + text + rest
    ensures a + t + c == a + w + b + text + (rest + c)
  {
    assert t == w + (b + text + rest);
  }

  /** The reader takes exactly these lines for settings. */
  lemma {:induction false} ReadExactly(line: string, k: Key, text: string)
    ensures ReadSetting(line) == Some((k, text)) <==> Says(line, k, text)
  {
    if ReadSetting(line) == Some((k, text)) {
      ReadSays(line, k, text);
    }
    if Says(line, k, text) {
      var a, w, b, rest :| IsSetting(line, k, text, a, w, b, rest);
      SettingRead(line, k, text, a, w, b, rest);
    }
  }

  // ---------- the file after an update ----------

  /** The line that an update writes for a key, if it is asked to. */
  function LineFor(req: Request, k: Key): Option<string> {
    match k
    case Port => if req.port.Some? then Some("Port " + Itoa(req.port.value)) else None
    case PermitRootLogin => YesNo("PermitRootLogin ", req.permitRootLogin)
    case PasswordAuth => YesNo("PasswordAuthentication ", req.passwordAuth)
    case PubkeyAuth => YesNo("PubkeyAuthentication ", req.pubkeyAuth)
  }

  function YesNo(keyword: string, b: Option<bool>): Option<string> {
    if b.None? then None else Some(keyword + if b.value then "yes" else "no")
  }

  lemma {:induction false} LineForIs(req: Request, k: Key)
    ensures LineFor(req, k) ==
      if Wanted(req, k).Some? then Some(Directive(k, Wanted(req, k).value)) else None
  {
    assert "Port" + " " == "Port " && "PermitRootLogin" + " " == "PermitRootLogin ";
    assert "PasswordAuthentication" + " " == "PasswordAuthentication ";
    assert "PubkeyAuthentication" + " " == "PubkeyAuthentication ";
  }

  /** What becomes of a line: the new setting if it names a requested key, and else itself. */
  ghost predicate LineBecomes(line: string, after: string, req: Request) {
    && (forall k :: NamesKey(line, k) && LineFor(req, k).Some? ==> after == LineFor(req, k).value)
    && ((forall k :: NamesKey(line, k) ==> LineFor(req, k).None?) ==> after == line)
  }

  /** The line for a requested key that no line names. */
  ghost function MissingLine(lines: seq<string>, req: Request, k: Key): seq<string> {
    if LineFor(req, k).Some? && forall line :: line in lines ==> !NamesKey(line, k) then [LineFor(req, k).value] else []
  }

  /** What is added at the end. */
  ghost function AddedLines(lines: seq<string>, req: Request): seq<string> {
    var missing := MissingLine(lines, req, Port) + MissingLine(lines, req, PermitRootLogin)
                   + MissingLine(lines, req, PasswordAuth) + MissingLine(lines, req, PubkeyAuth);
    if missing == [] then [] else ["", "# Added by Cloudnan"] + missing
  }

  lemma {:induction false} BecomesRewritten(line: string, req: Request)
    ensures LineBecomes(line, Rewritten(line, req), req)
  {
    forall k
      ensures NamesKey(line, k) <==> WrittenKey(line) == Some(k)
      ensures LineFor(req, k) == if Wanted(req, k).Some? then Some(Directive(k, Wanted(req, k).value)) else None
    {
      WrittenExactly(line, k);
      LineForIs(req, k);
    }
  }

  lemma {:induction false} AdditionIs(lines: seq<string>, req: Request, k: Key)
    ensures Addition(k, req, Updated(lines, req)) == MissingLine(lines, req, k)
  {
    LineForIs(req, k);
    forall line
      ensures NamesKey(line, k) <==> WrittenKey(line) == Some(k)
    {
      WrittenExactly(line, k);
    }
  }

  /** An update, line by line: lines that name a requested key are rewritten in place, all others stay as
      they are, and behind them come only the settings that had no line. */
  lemma {:induction false} UpdateByLines(content: string, req: Request)
    ensures var (before, after) := (Split(content, '\n'), Split(Rewrite(content, req), '\n'));
      && |after| >= |before|
      && (forall i :: 0 <= i < |before| ==> LineBecomes(before[i], after[i], req))
      && after[|before|..] == AddedLines(before, req)
  {
    LinesOfRewrite(content, req);
    var lines := Split(content, '\n');
    forall i | 0 <= i < |lines|
      ensures LineBecomes(lines[i], Mapped(lines, req)[i], req)
    {
      BecomesRewritten(lines[i], req);
    }
    AdditionIs(lines, req, Port);
    AdditionIs(lines, req, PermitRootLogin);
    AdditionIs(lines, req, PasswordAuth);
    AdditionIs(lines, req, PubkeyAuth);
    assert NewLines(lines, req)[|lines|..] == AddedLines(lines, req);
  }

  // ---------- the settings read ----------

  /** The value that a text stands for: yes, true and 1 in any case mean yes; a port is a number. */
  function ValueOf(k: Key, text: string): Option<Value> {
    if k.Port? then if Atoi(text).Some? then Some(Number(Atoi(text).value)) else None
    else Some(Flag(ToLower(text) == "yes" || ToLower(text) == "true" || ToLower(text) == "1"))
  }

  lemma {:induction false} HeardSays(line: string, k: Key, v: Value)
    ensures Heard(k, line) == Some(v) <==> exists text :: Says(line, k, text) && ValueOf(k, text) == Some(v)
  {
    if Heard(k, line) == Some(v) {
      ReadExactly(line, k, ReadSetting(line).value.1);
    }
    if text :| Says(line, k, text) && ValueOf(k, text) == Some(v) {
      ReadExactly(line, k, text);
    }
  }

  /** The line sets the key to the value, and no line after it sets the key. */
  ghost predicate Decides(lines: seq<string>, i: nat, k: Key, v: Value) {
    && i < |lines| && SetsTo(lines[i], k, v)
    && forall j, u :: i < j < |lines| ==> !SetsTo(lines[j], k, u)
  }

  ghost predicate SetsTo(line: string, k: Key, v: Value) {
    exists text :: Says(line, k, text) && ValueOf(k, text) == Some(v)
  }

  /** No line sets the key. */
  ghost predicate Unset(lines: seq<string>, k: Key) {
    forall j, u | 0 <= j < |lines| :: !SetsTo(lines[j], k, u)
  }

  lemma {:induction false} HeardSets(line: string, k: Key)
    ensures Heard(k, line).Some? ==> SetsTo(line, k, Heard(k, line).value)
  {
    if Heard(k, line).Some? {
      HeardSays(line, k, Heard(k, line).value);
    }
  }

  lemma {:induction false} LastStep(lines: seq<string>, k: Key, v0: Value)
    requires lines != []
    ensures Last(k, v0, lines) == Last(k, if Heard(k, lines[0]).Some? then Heard(k, lines[0]).value else v0, lines[1..])
  {
  }

  lemma {:induction false} LastDecides(lines: seq<string>, i: nat, k: Key, v0: Value, v: Value)
    requires i < |lines| && Heard(k, lines[i]) == Some(v) && forall j :: i < j < |lines| ==> Heard(k, lines[j]) == None
    ensures Last(k, v0, lines) == v
    decreases |lines|
  {
    LastStep(lines, k, v0);
    assert forall j :: 0 <= j < |lines[1..]| ==> lines[1..][j] == lines[j + 1];
    if i > 0 {
      LastDecides(lines[1..], i - 1, k, if Heard(k, lines[0]).Some? then Heard(k, lines[0]).value else v0, v);
    } else {
      NoneDecides(lines[1..], k, v);
    }
  }

  lemma {:induction false} NoneDecides(lines: seq<string>, k: Key, v0: Value)
    requires forall j :: 0 <= j < |lines| ==> Heard(k, lines[j]) == None
    ensures Last(k, v0, lines) == v0
    decreases |lines|
  {
    if lines != [] {
      NoneDecides(lines[1..], k, v0);
    }
  }

  lemma {:induction false} DecidedIsLast(lines: seq<string>, i: nat, k: Key, v0: Value, v: Value)
    requires Decides(lines, i, k, v)
    ensures Last(k, v0, lines) == v
  {
    HeardSays(lines[i], k, v);
    forall j | i < j < |lines|
      ensures Heard(k, lines[j]) == None
    {
      HeardSets(lines[j], k);
    }
    LastDecides(lines, i, k, v0, v);
  }

  lemma {:induction false} UnsetIsDefault(lines: seq<string>, k: Key, v0: Value)
    requires Unset(lines, k)
    ensures Last(k, v0, lines) == v0
  {
    forall j | 0 <= j < |lines|
      ensures Heard(k, lines[j]) == None
    {
      HeardSets(lines[j], k);
    }
    NoneDecides(lines, k, v0);
  }

  /** What the lines make the value of the key: what the last line that sets it says, or else `v0`. */
  ghost predicate Tells(lines: seq<string>, k: Key, v0: Value, v: Value) {
    (Unset(lines, k) && v == v0) || exists i :: Decides(lines, i, k, v)
  }

  lemma {:induction false} LastTells(lines: seq<string>, k: Key, v0: Value)
    ensures Tells(lines, k, v0, Last(k, v0, lines))
  {
    if Unset(lines, k) {
      UnsetIsDefault(lines, k, v0);
    } else {
      var j, u :| 0 <= j < |lines| && SetsTo(lines[j], k, u);
      var i, v := LastThatSets(lines, k, j, u);
      DecidedIsLast(lines, i, k, v0, v);
    }
  }

  lemma {:induction false} LastThatSets(lines: seq<string>, k: Key, j: nat, u: Value) returns (i: nat, v: Value)
    requires j < |lines| && SetsTo(lines[j], k, u)
    ensures Decides(lines, i, k, v)
    decreases |lines| - j
  {
    if m, w :| j < m < |lines| && SetsTo(lines[m], k, w) {
      i, v := LastThatSets(lines, k, m, w);
    } else {
      i, v := j, u;
    }
  }

  /** Each setting read is what the last line that sets it says; without one, port 22 and yes. */
  lemma {:induction false} SettingsByLines(content: string)
    ensures var (lines, c) := (Scanned(Split(content, '\n')), Settings(content));
      && Tells(lines, Port, Number(22), Number(c.port))
      && Tells(lines, PermitRootLogin, Flag(true), Flag(c.permitRootLogin))
      && Tells(lines, PasswordAuth, Flag(true), Flag(c.passwordAuth))
      && Tells(lines, PubkeyAuth, Flag(true), Flag(c.pubkeyAuth))
  {
    var lines := Scanned(Split(content, '\n'));
    forall k
      ensures Tells(lines, k, Lookup(DEFAULT, k), Lookup(Settings(content), k))
    {
      ApplyAllIsLast(DEFAULT, lines, k);
      LastTells(lines, k, Lookup(DEFAULT, k));
    }
    assert Tells(lines, Port, Lookup(DEFAULT, Port), Lookup(Settings(content), Port));
    assert Tells(lines, PermitRootLogin, Lookup(DEFAULT, PermitRootLogin), Lookup(Settings(content), PermitRootLogin));
    assert Tells(lines, PasswordAuth, Lookup(DEFAULT, PasswordAuth), Lookup(Settings(content), PasswordAuth));
    assert Tells(lines, PubkeyAuth, Lookup(DEFAULT, PubkeyAuth), Lookup(Settings(content), PubkeyAuth));
  }

  /** The settings that were asked for, and the others from before. */
  predicate Obeys(req: Request, before: Config, after: Config) {
    && after.port == (if req.port.Some? then req.port.value else before.port)
    && after.permitRootLogin == (if req.permitRootLogin.Some? then req.permitRootLogin.value else before.permitRootLogin)
    && after.passwordAuth == (if req.passwordAuth.Some? then req.passwordAuth.value else before.passwordAuth)
    && after.pubkeyAuth == (if req.pubkeyAuth.Some? then req.pubkeyAuth.value else before.pubkeyAuth)
  }

  lemma {:induction false} AskedObeys(req: Request, before: Config, after: Config)
    requires forall k :: Lookup(after, k) == Asked(req, k, Lookup(before, k))
    ensures Obeys(req, before, after)
  {
    assert Lookup(after, Port) == Asked(req, Port, Lookup(before, Port));
    assert Lookup(after, PermitRootLogin) == Asked(req, PermitRootLogin, Lookup(before, PermitRootLogin));
    assert Lookup(after, PasswordAuth) == Asked(req, PasswordAuth, Lookup(before, PasswordAuth));
    assert Lookup(after, PubkeyAuth) == Asked(req, PubkeyAuth, Lookup(before, PubkeyAuth));
  }

  /** Reading back an update, setting by setting. */
  lemma {:induction false} ReadBack(content: string, req: Request)
    requires LinesFit(Split(content, '\n'))
    ensures Obeys(req, Settings(content), Settings(Rewrite(content, req)))
  {
    SetThenGet(content, req);
    AskedObeys(req, Settings(content), Settings(Rewrite(content, req)));
  }
}
