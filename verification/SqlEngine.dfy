/** The engines' own reading of quoted texts, and when it agrees with the scanner's. */
module SqlEngine {
  import opened Wrappers
  import opened Strings
  import opened SqlScan
  import opened SqlStrip
  import opened SqlIdempotence
  import opened SqlTokens
  import opened SqlQuote
  import opened SqlClassify
  import opened SqlParens
  import SqlWithPrint

  /** Whether a backslash escapes the byte after it, between single and between double quotes. */
  datatype Dialect = Dialect(single: bool, double: bool)

  /** PostgreSQL with standard strings; MySQL, where both quotes enclose strings; the scanner. */
  const POSTGRES := Dialect(false, false)
  const MYSQL := Dialect(true, true)
  const SCANNER := Dialect(true, false)

  /** The token at the front of `s`: the scanner's, but for the quoted texts. */
  function TokenIn(d: Dialect, s: string): (t: Token)
    requires s != ""
    ensures t.Comment? || t.Piece? ==> 0 < t.len <= |s|
  {
    if s[0] == '\'' then Quoted(SkipQuoted('\'', d.single, s), UnterminatedString)
    else if s[0] == '"' then Quoted(SkipQuoted('"', d.double, s), UnterminatedIdent)
    else NextToken(s)
  }

  function LexIn(d: Dialect, s: string): Option<seq<Lexeme>> {
    if s == "" then Some([])
    else
      match TokenIn(d, s)
      case Comment(n) => Cons(CommentText(s[..n]), LexIn(d, s[n..]))
      case Piece(n) => Cons(PieceText(s[..n]), LexIn(d, s[n..]))
      case Semi => Cons(SemiMark, LexIn(d, s[1..]))
      case Bad(_) => None
  }

  /** The engine sees at most one statement. */
  ghost predicate PassesIn(d: Dialect, s: string) {
    LexIn(d, s).Some? && AllBlank(LexIn(d, s).value[BeforeSemi(LexIn(d, s).value)..])
  }

  lemma {:induction false} ScannerReads(s: string)
    ensures LexIn(SCANNER, s) == Lex(s)
  {
    if s != "" {
      match NextToken(s)
      case Comment(n) => ScannerReads(s[n..]);
      case Piece(n) => ScannerReads(s[n..]);
      case Semi => ScannerReads(s[1..]);
      case Bad(_) =>
    }
  }

  // ---------- agreement ----------

  /** The engine, too, reads the token as a whole. */
  predicate ReadsWhole(d: Dialect, t: Lexeme) {
    t.PieceText? && t.text != "" ==>
      && (t.text[0] == '\'' ==> SkipQuoted('\'', d.single, t.text) == |t.text|)
      && (t.text[0] == '"' ==> SkipQuoted('"', d.double, t.text) == |t.text|)
  }

  ghost predicate AllReadWhole(d: Dialect, toks: seq<Lexeme>) {
    forall t :: t in toks ==> ReadsWhole(d, t)
  }

  /** A quoted text that one reading finds is found by the other exactly when it is a quoted text by
      itself there. */
  lemma {:induction false} FoundByBoth(q: char, found: bool, other: bool, s: string)
    requires q != '\\' && SkipQuoted(q, found, s) > 0
    ensures var n := SkipQuoted(q, found, s);
      SkipQuoted(q, other, s) == n <==> SkipQuoted(q, other, s[..n]) == n
  {
    var n := SkipQuoted(q, found, s);
    QuoteEndShape(q, found, s, 1);
    if SkipQuoted(q, other, s) == n {
      QuoteEndLocal(q, other, s, 1, "");
      assert s[..n] + "" == s[..n];
    }
    if SkipQuoted(q, other, s[..n]) == n {
      QuoteEndLocal(q, other, s[..n], 1, s[n..]);
      assert s[..n][..n] + s[n..] == s;
    }
  }

  lemma {:induction false} WholeCons(d: Dialect, t: Lexeme, toks: seq<Lexeme>)
    ensures AllReadWhole(d, [t] + toks) <==> ReadsWhole(d, t) && AllReadWhole(d, toks)
  {
    assert forall x :: x in [t] + toks <==> x == t || x in toks;
  }

  /** The engine finds the scanner's token exactly when it reads it as a whole. */
  lemma {:induction false} TokenFound(d: Dialect, s: string)
    requires s != "" && !NextToken(s).Bad?
    ensures TokenIn(d, s) == NextToken(s) <==> ReadsWhole(d, First(s))
  {
    FirstFits(s);
    if s[0] == '\'' {
      FoundByBoth('\'', true, d.single, s);
    } else if s[0] == '"' {
      FoundByBoth('"', false, d.double, s);
    }
  }

  lemma {:induction false} SameFirst(d: Dialect, s: string)
    requires s != "" && !NextToken(s).Bad? && TokenIn(d, s) == NextToken(s)
    ensures Width(First(s)) <= |s|
    ensures LexIn(d, s) == Cons(First(s), LexIn(d, s[Width(First(s))..]))
  {
    FirstFits(s);
  }

  lemma {:induction false} OtherFirst(d: Dialect, s: string)
    requires s != "" && Lex(s).Some? && TokenIn(d, s) != NextToken(s)
    ensures LexIn(d, s) != Lex(s)
  {
    if LexIn(d, s).Some? {
      var (m, n) := (TokenIn(d, s).len, NextToken(s).len);
      assert m != n && |s[..m]| != |s[..n]|;
      assert LexIn(d, s).value[0] == PieceText(s[..m]) && Lex(s).value[0] == PieceText(s[..n]);
    }
  }

  lemma {:induction false} ConsSame(t: Lexeme, a: Option<seq<Lexeme>>, b: Option<seq<Lexeme>>)
    ensures Cons(t, a) == Cons(t, b) <==> a == b
  {
    if a.Some? && b.Some? && [t] + a.value == [t] + b.value {
      assert ([t] + a.value)[1..] == a.value && ([t] + b.value)[1..] == b.value;
    }
  }

  /** On every text that the scanner cuts into tokens: an engine cuts it into the same tokens if and only
      if it reads each of the quoted ones as a whole. */
  lemma {:induction false} SameTokens(d: Dialect, s: string)
    requires Lex(s).Some?
    ensures LexIn(d, s) == Lex(s) <==> AllReadWhole(d, Lex(s).value)
  {
    if s != "" {
      FirstFits(s);
      var (t, n) := (First(s), Width(First(s)));
      assert Lex(s) == Cons(t, Lex(s[n..]));
      SameTokens(d, s[n..]);
      WholeCons(d, t, Lex(s[n..]).value);
      TokenFound(d, s);
      if ReadsWhole(d, t) {
        SameFirst(d, s);
        ConsSame(t, LexIn(d, s[n..]), Lex(s[n..]));
      } else {
        OtherFirst(d, s);
      }
    }
  }

  /** So what the scanner passes as one statement is one statement of the same tokens for such an
      engine. */
  lemma {:induction false} OneStatementForBoth(d: Dialect, s: string)
    requires SqlTokens.Passes(s) && AllReadWhole(d, Lex(s).value)
    ensures Strip(s).Success? && PassesIn(d, s) && LexIn(d, s) == Lex(s)
  {
    StripByTokens(s);
    SameTokens(d, s);
  }

  /** A backslash is what the readings differ in: quoted texts without one are read alike. */
  lemma {:induction false} NoBackslash(q: char, s: string, i: nat)
    requires i <= |s| && forall j :: i <= j < |s| ==> s[j] != '\\'
    ensures QuoteEnd(q, true, s, i) == QuoteEnd(q, false, s, i)
    decreases |s| - i
  {
    if i < |s| {
      if s[i] != q {
        NoBackslash(q, s, i + 1);
      } else if i + 1 < |s| && s[i + 1] == q {
        NoBackslash(q, s, i + 2);
      }
    }
  }

  /** No quoted text with a backslash in it. */
  predicate PlainQuotes(t: Lexeme) {
    t.PieceText? && t.text != "" && t.text[0] in {'\'', '"'} ==> '\\' !in t.text
  }

  /** Whatever the dialect, texts whose quoted tokens hold no backslash are read as the scanner does. */
  lemma {:induction false} PlainQuotesAgree(d: Dialect, s: string)
    requires Lex(s).Some? && forall t :: t in Lex(s).value ==> PlainQuotes(t)
    ensures LexIn(d, s) == Lex(s)
  {
    if s != "" {
      FirstFits(s);
      var (t, n) := (First(s), Width(First(s)));
      var rest := Lex(s[n..]).value;
      assert Lex(s).value == [t] + rest && t in Lex(s).value;
      assert forall x :: x in rest ==> x in Lex(s).value;
      PlainQuotesAgree(d, s[n..]);
      PlainFound(d, s);
      SameFirst(d, s);
    }
  }

  lemma {:induction false} PlainFound(d: Dialect, s: string)
    requires s != "" && !NextToken(s).Bad? && PlainQuotes(First(s))
    ensures TokenIn(d, s) == NextToken(s)
  {
    FirstFits(s);
    TokenFound(d, s);
    if s[0] == '\'' {
      FoundByBoth('\'', true, true, s);
      PlainWhole('\'', true, d.single, s[..Width(First(s))]);
    } else if s[0] == '"' {
      FoundByBoth('"', false, false, s);
      PlainWhole('"', false, d.double, s[..Width(First(s))]);
    }
  }

  lemma {:induction false} PlainWhole(q: char, found: bool, other: bool, t: string)
    requires '\\' !in t
    ensures SkipQuoted(q, found, t) == SkipQuoted(q, other, t)
  {
    if t != "" {
      NoBackslash(q, t, 1);
    }
  }

  // ---------- where they disagree ----------

  /** One token for each byte. */
  function Bytewise(w: string): (toks: seq<Lexeme>)
    ensures |toks| == |w| && forall i :: 0 <= i < |w| ==> toks[i] == PieceText([w[i]])
  {
    seq(|w|, i requires 0 <= i < |w| => PieceText([w[i]]))
  }

  function Concat(a: seq<Lexeme>, b: Option<seq<Lexeme>>): Option<seq<Lexeme>> {
    if b.None? then None else Some(a + b.value)
  }

  lemma {:induction false} PieceLexed(d: Dialect, p: string, t: string)
    requires p != "" && TokenIn(d, p + t) == Piece(|p|)
    ensures LexIn(d, p + t) == Cons(PieceText(p), LexIn(d, t))
  {
    assert (p + t)[..|p|] == p && (p + t)[|p|..] == t;
  }

  lemma {:induction false} PlainToken(d: Dialect, c: char, t: string)
    requires PlainByte(c)
    ensures TokenIn(d, [c] + t) == Piece(1)
  {
  }

  lemma {:induction false} OneMoreByte(c: char, w: string, toks: Option<seq<Lexeme>>)
    ensures Cons(PieceText([c]), Concat(Bytewise(w), toks)) == Concat(Bytewise([c] + w), toks)
  {
    assert Bytewise([c] + w) == [PieceText([c])] + Bytewise(w);
    if toks.Some? {
      assert [PieceText([c])] + (Bytewise(w) + toks.value) == [PieceText([c])] + Bytewise(w) + toks.value;
    }
  }

  lemma {:induction false} PlainLexed(d: Dialect, w: string, t: string)
    requires PlainText(w)
    ensures LexIn(d, w + t) == Concat(Bytewise(w), LexIn(d, t))
    decreases |w|
  {
    if w == "" {
      assert w + t == t;
      assert LexIn(d, t).Some? ==> [] + LexIn(d, t).value == LexIn(d, t).value;
    } else {
      assert w == [w[0]] + w[1..] && w + t == [w[0]] + (w[1..] + t);
      PlainLexed(d, w[1..], t);
      PlainToken(d, w[0], w[1..] + t);
      PieceLexed(d, [w[0]], w[1..] + t);
      OneMoreByte(w[0], w[1..], LexIn(d, t));
    }
  }

  lemma {:induction false} EndAfter(q: char, backslash: bool, s: string, i: nat, j: nat)
    requires i <= j <= |s| && forall k :: i <= k < j ==> s[k] != q && s[k] != '\\'
    ensures QuoteEnd(q, backslash, s, i) == QuoteEnd(q, backslash, s, j)
    decreases j - i
  {
    if i < j {
      EndAfter(q, backslash, s, i + 1, j);
    }
  }

  /** A string that ends in a backslash, and after it a second statement. */
  function StringThen(second: string): string {
    "'\\'" + (";" + ((" " + second) + (";" + (" " + "--'"))))
  }

  predicate Words(w: string) {
    w != "" && !IsBlank(w[0]) && forall c :: c in w ==> PlainByte(c) && c != '\\'
  }

  lemma {:induction false} SelectIsRead(text: string)
    requires text != "" && !IsSpace(text[|text| - 1])
    ensures Verdict("SELECT " + text) == Success(Read)
  {
    var s := "SELECT " + text;
    Trimmed(s);
    assert s == "SELECT" + (" " + text);
    SqlWithPrint.RunOfWord("SELECT", " " + text);
    SelectLower();
  }

  lemma {:induction false} SelectLower()
    ensures ToLower("SELECT") == "select"
  {
  }

  lemma {:induction false} SemiLexed(d: Dialect, t: string)
    ensures LexIn(d, ";" + t) == Cons(SemiMark, LexIn(d, t))
  {
    assert (";" + t)[1..] == t;
  }

  /** A token after a terminator that is not blank begins a second statement. */
  lemma {:induction false} SecondBegins(toks: seq<Lexeme>, i: nat, j: nat)
    requires i < j < |toks| && toks[i].SemiMark? && !toks[j].Blank()
    ensures !AllBlank(toks[BeforeSemi(toks)..])
  {
    assert toks[BeforeSemi(toks)..][j - BeforeSemi(toks)] == toks[j];
  }

  lemma {:induction false} CommentLexed(d: Dialect)
    ensures LexIn(d, "--'") == Some([CommentText("--'")])
  {
    var end := "--'";
    IndexOfByte(end, '\n', "");
    assert end[..3] == end && end[3..] == "";
    assert LexIn(d, "") == Some([]);
    assert [CommentText(end)] + [] == [CommentText(end)];
  }

  lemma {:induction false} ScannedWhole(second: string)
    requires Words(second)
    ensures SkipQuoted('\'', true, StringThen(second)) == |StringThen(second)|
  {
    var s := StringThen(second);
    var rest := (" " + second) + (";" + (" " + "--'"));
    assert forall k :: 0 <= k < |second| ==> second[k] in second;
    assert s == "'\\'" + (";" + rest);
    forall k | 3 <= k < |s| - 1
      ensures s[k] != '\'' && s[k] != '\\'
    {
      if k > 3 {
        assert s[k] == rest[k - 4];
      }
    }
    EndAfter('\'', true, s, 3, |s| - 1);
    assert QuoteEnd('\'', true, s, 1) == QuoteEnd('\'', true, s, 3);
  }

  /** Two statements for PostgreSQL, of which the scanner makes one, and a reading one: such as
      SELECT '\'; DROP TABLE t; --' */
  lemma {:induction false} ReadAsOne(second: string)
    requires Words(second)
    ensures var s := "SELECT " + StringThen(second);
      Strip(s) == Success(s) && Classify(s) == Success(Read)
  {
    var lit := StringThen(second);
    ScannedWhole(second);
    assert lit + "" == lit;
    KeptAgain(lit, "");
    PlainKept("SELECT ", lit);
    SelectIsRead(lit);
  }

  lemma {:induction false} SeenAsTwo(second: string)
    requires Words(second)
    ensures var s := "SELECT " + StringThen(second);
      LexIn(POSTGRES, s).Some? && !PassesIn(POSTGRES, s)
  {
    var (d, rest) := (POSTGRES, ";" + ((" " + second) + (";" + (" " + "--'"))));
    SecondLexed(d, second);
    StringLexed(d, rest);
    assert StringThen(second) == "'\\'" + rest;
    PlainLexed(d, "SELECT ", "'\\'" + rest);
    var toks := LexIn(d, "SELECT " + StringThen(second)).value;
    assert toks == Bytewise("SELECT ") + ([PieceText("'\\'")] + LexIn(d, rest).value);
    SecondBegins(toks, 8, 10);
  }

  lemma {:induction false} EndLexed(d: Dialect)
    ensures LexIn(d, ";" + (" " + "--'")).Some?
  {
    CommentLexed(d);
    PlainLexed(d, " ", "--'");
    SemiLexed(d, " " + "--'");
  }

  lemma {:induction false} SecondLexed(d: Dialect, second: string)
    requires Words(second)
    ensures var toks := LexIn(d, ";" + ((" " + second) + (";" + (" " + "--'"))));
      toks.Some? && |toks.value| > 2 && toks.value[0].SemiMark? && !toks.value[2].Blank()
  {
    var end := ";" + (" " + "--'");
    EndLexed(d);
    assert forall k :: 0 <= k < |second| ==> second[k] in second;
    PlainLexed(d, " " + second, end);
    SemiLexed(d, (" " + second) + end);
    assert Bytewise(" " + second)[1] == PieceText([second[0]]);
  }

  lemma {:induction false} StringLexed(d: Dialect, rest: string)
    requires !d.single && (rest == "" || rest[0] != '\'')
    ensures LexIn(d, "'\\'" + rest) == Cons(PieceText("'\\'"), LexIn(d, rest))
  {
    var s := "'\\'" + rest;
    assert QuoteEnd('\'', false, s, 2) == 3;
    assert QuoteEnd('\'', false, s, 1) == QuoteEnd('\'', false, s, 2);
    PieceLexed(d, "'\\'", rest);
  }

  /** One statement for MySQL, where a backslash escapes a double quote too; the scanner, which ends the
      text there, does not pass it. */
  lemma {:induction false} RefusedAsTwo(text: string)
    requires Words(text)
    ensures var s := "SELECT " + ("\"\\\"" + (";" + (text + "\"")));
      PassesIn(MYSQL, s) && Strip(s).Failure?
  {
    var rest := ";" + (text + "\"");
    var lit := "\"\\\"" + rest;
    WholeForMySQL(text);
    PlainLexed(MYSQL, "SELECT ", lit);
    NoSemi(LexIn(MYSQL, "SELECT " + lit).value);
    OpenForScanner(text);
    PlainLexed(SCANNER, "SELECT ", lit);
    ScannerReads("SELECT " + lit);
    StripByTokens("SELECT " + lit);
  }

  lemma {:induction false} NoSemi(toks: seq<Lexeme>)
    requires forall t :: t in toks ==> !t.SemiMark?
    ensures BeforeSemi(toks) == |toks|
  {
    if toks != [] {
      assert toks[0] in toks && forall t :: t in toks[1..] ==> t in toks;
      NoSemi(toks[1..]);
    }
  }

  lemma {:induction false} WholeForMySQL(text: string)
    requires Words(text)
    ensures var lit := "\"\\\"" + (";" + (text + "\""));
      LexIn(MYSQL, lit) == Some([PieceText(lit)])
  {
    var lit := "\"\\\"" + (";" + (text + "\""));
    assert forall k :: 0 <= k < |text| ==> text[k] in text;
    forall k | 3 <= k < |lit| - 1
      ensures lit[k] != '"' && lit[k] != '\\'
    {
      if k > 3 {
        assert lit[k] == text[k - 4];
      }
    }
    EndAfter('"', true, lit, 3, |lit| - 1);
    assert QuoteEnd('"', true, lit, 1) == QuoteEnd('"', true, lit, 3) == |lit|;
    assert lit + "" == lit;
    PieceLexed(MYSQL, lit, "");
    assert [PieceText(lit)] + [] == [PieceText(lit)];
  }

  lemma {:induction false} OpenForScanner(text: string)
    requires Words(text)
    ensures LexIn(SCANNER, "\"\\\"" + (";" + (text + "\""))).None?
  {
    var rest := ";" + (text + "\"");
    assert forall k :: 0 <= k < |text| ==> text[k] in text;
    assert LexIn(SCANNER, "\"").None?;
    PlainLexed(SCANNER, text, "\"");
    SemiLexed(SCANNER, text + "\"");
    var s := "\"\\\"" + rest;
    assert QuoteEnd('"', false, s, 2) == 3;
    assert QuoteEnd('"', false, s, 1) == QuoteEnd('"', false, s, 2);
    PieceLexed(SCANNER, "\"\\\"", rest);
  }
}
