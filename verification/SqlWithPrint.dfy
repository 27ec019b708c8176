/** Printed WITH queries are classified by their body keyword. */
module SqlWithPrint {
  import opened Wrappers
  import opened Strings
  import opened SqlScan
  import opened SqlStrip
  import opened SqlIdempotence
  import opened SqlQuote
  import opened SqlClassify
  import opened SqlPrint
  import opened SqlForms

  /** A name: in the quotes `q`, in brackets, or as it is. */
  datatype CteName = InQuotes(q: char, name: string) | InBrackets(name: string) | Bare(name: string) {
    predicate Valid() {
      match this
      case InQuotes(q, _) => q == '"' || q == '`'
      case InBrackets(x) => forall c :: c in x ==> PlainByte(c) && c != ']'
      case Bare(x) => x != "" && forall c :: c in x ==> WordByte(c) || c == '.'
    }

    function Text(): string {
      match this
      case InQuotes(q, x) => QuoteIdent(q, x)
      case InBrackets(x) => "[" + x + "]"
      case Bare(x) => x
    }
  }

  /** One entry of a WITH list. */
  datatype CteEntry = CteEntry(
    name: CteName, columns: Option<SqlPrint.Body>, materialized: Option<bool>, body: SqlPrint.Body)
  {
    predicate Valid() {
      && name.Valid()
      && (columns.Some? ==> WellFormed(columns.value, Some(')')))
      && WellFormed(body, Some(')'))
    }
  }

  function Parens(b: SqlPrint.Body): string {
    "(" + SqlPrint.Text(b) + ")"
  }

  // The printers put what they print in front of a text `t`.

  function PrintBody(c: CteEntry, t: string): string {
    Parens(c.body) + t
  }

  function PrintMaterialized(c: CteEntry, t: string): string {
    match c.materialized
    case None => PrintBody(c, t)
    case Some(true) => "MATERIALIZED" + (" " + PrintBody(c, t))
    case Some(false) => "NOT MATERIALIZED" + (" " + PrintBody(c, t))
  }

  function PrintAs(c: CteEntry, t: string): string {
    "AS" + (" " + PrintMaterialized(c, t))
  }

  function PrintColumns(c: CteEntry, t: string): string {
    match c.columns
    case None => PrintAs(c, t)
    case Some(b) => Parens(b) + (" " + PrintAs(c, t))
  }

  function PrintEntry(c: CteEntry, t: string): string {
    c.name.Text() + (" " + PrintColumns(c, t))
  }

  function PrintList(cs: seq<CteEntry>, t: string): string
    requires cs != []
  {
    PrintEntry(cs[0], if |cs| == 1 then " " + t else "," + (" " + PrintList(cs[1..], t)))
  }

  /** `WITH [RECURSIVE] list keyword tail` */
  function PrintQuery(recursive: bool, cs: seq<CteEntry>, kw: string, tail: SqlPrint.Body): string
    requires cs != []
  {
    "WITH" + (" " + PrintRecursive(recursive, PrintList(cs, kw + SqlPrint.Text(tail))))
  }

  function PrintRecursive(recursive: bool, t: string): string {
    if recursive then "RECURSIVE" + (" " + t) else t
  }

  /** A keyword that some letter or digit makes, and a tail that does not continue it. */
  ghost predicate ValidEnd(kw: string, tail: SqlPrint.Body) {
    && kw != "" && (forall i :: 0 <= i < |kw| ==> IsWordByte(kw[i]))
    && WellFormed(tail, None)
    && (SqlPrint.Text(tail) != "" ==> !IsWordByte(SqlPrint.Text(tail)[0]))
  }

  // ---------- the stripper leaves it alone ----------

  lemma {:induction false} WordsUnchanged(w: string, t: string)
    requires PlainText(w) && Unchanged(t)
    ensures Unchanged(w + (" " + t))
  {
    PlainByteKept(' ', t);
    assert [' '] + t == " " + t;
    PlainKept(w, " " + t);
  }

  lemma {:induction false} ParensUnchanged(b: SqlPrint.Body, t: string)
    requires WellFormed(b, Some(')')) && Unchanged(t)
    ensures Unchanged(Parens(b) + t)
  {
    GroupUnchanged(b, t);
  }

  lemma {:induction false} EntryUnchanged(c: CteEntry, t: string)
    requires c.Valid() && Unchanged(t)
    ensures Unchanged(PrintEntry(c, t))
  {
    ParensUnchanged(c.body, t);
    MaterializedUnchanged(c, t);
    WordsUnchanged("AS", PrintMaterialized(c, t));
    ColumnsUnchanged(c, t);
    NameUnchanged(c, PrintColumns(c, t));
  }

  lemma {:induction false} NameUnchanged(c: CteEntry, t: string)
    requires c.Valid() && Unchanged(t)
    ensures Unchanged(c.name.Text() + (" " + t))
  {
    PlainByteKept(' ', t);
    assert [' '] + t == " " + t;
    match c.name
    case InQuotes(q, x) =>
      QuotedIdentReadsBack(q, x, " " + t);
      KeptAgain(QuoteIdent(q, x), " " + t);
    case InBrackets(x) =>
      BracketsPlain(x);
      PlainKept("[" + x + "]", " " + t);
    case Bare(x) =>
      BarePlain(x);
      PlainKept(x, " " + t);
  }

  lemma {:induction false} BracketsPlain(x: string)
    requires forall c :: c in x ==> PlainByte(c)
    ensures PlainText("[" + x + "]")
  {
    var s := "[" + x + "]";
    forall i | 0 <= i < |s|
      ensures PlainByte(s[i])
    {
      if 0 < i < |s| - 1 {
        assert s[i] == x[i - 1];
      }
    }
  }

  lemma {:induction false} BarePlain(x: string)
    requires forall c :: c in x ==> WordByte(c) || c == '.'
    ensures PlainText(x)
  {
    forall i | 0 <= i < |x|
      ensures PlainByte(x[i])
    {
      assert x[i] in x;
    }
  }

  lemma {:induction false} MaterializedUnchanged(c: CteEntry, t: string)
    requires Unchanged(PrintBody(c, t))
    ensures Unchanged(PrintMaterialized(c, t))
  {
    WordsUnchanged("MATERIALIZED", PrintBody(c, t));
    WordsUnchanged("NOT MATERIALIZED", PrintBody(c, t));
  }

  lemma {:induction false} ColumnsUnchanged(c: CteEntry, t: string)
    requires c.Valid() && Unchanged(PrintAs(c, t))
    ensures Unchanged(PrintColumns(c, t))
  {
    if c.columns.Some? {
      PlainByteKept(' ', PrintAs(c, t));
      assert [' '] + PrintAs(c, t) == " " + PrintAs(c, t);
      ParensUnchanged(c.columns.value, " " + PrintAs(c, t));
    }
  }

  lemma {:induction false} ListUnchanged(cs: seq<CteEntry>, t: string)
    requires cs != [] && (forall c :: c in cs ==> c.Valid()) && Unchanged(t)
    ensures Unchanged(PrintList(cs, t))
  {
    assert cs[0] in cs;
    if |cs| == 1 {
      WordsUnchanged("", t);
      assert "" + (" " + t) == " " + t;
      EntryUnchanged(cs[0], " " + t);
    } else {
      assert forall c :: c in cs[1..] ==> c in cs;
      ListUnchanged(cs[1..], t);
      WordsUnchanged(",", PrintList(cs[1..], t));
      EntryUnchanged(cs[0], "," + (" " + PrintList(cs[1..], t)));
    }
  }

  lemma {:induction false} QueryUnchanged(recursive: bool, cs: seq<CteEntry>, kw: string, tail: SqlPrint.Body)
    requires cs != [] && (forall c :: c in cs ==> c.Valid()) && ValidEnd(kw, tail)
    ensures Unchanged(PrintQuery(recursive, cs, kw, tail))
  {
    BodyUnchanged(tail, "");
    assert SqlPrint.Text(tail) + "" == SqlPrint.Text(tail);
    PlainKept(kw, SqlPrint.Text(tail));
    ListUnchanged(cs, kw + SqlPrint.Text(tail));
    HeadUnchanged(recursive, PrintList(cs, kw + SqlPrint.Text(tail)));
  }

  lemma {:induction false} HeadUnchanged(recursive: bool, list: string)
    requires Unchanged(list)
    ensures Unchanged("WITH" + (" " + PrintRecursive(recursive, list)))
  {
    if recursive {
      WordsUnchanged("RECURSIVE", list);
    }
    WordsUnchanged("WITH", PrintRecursive(recursive, list));
  }

  lemma {:induction false} PrintedEnds(c: CteEntry, t: string)
    requires Ends(t)
    ensures Ends(PrintBody(c, t)) && Ends(PrintMaterialized(c, t)) && Ends(PrintAs(c, t))
    ensures Ends(PrintColumns(c, t)) && Ends(PrintEntry(c, t))
  {
  }

  // ---------- the classifier reads the list ----------

  lemma {:induction false} LowerPrefix(w: string, a: string, b: string)
    requires ToLower(a) == w
    ensures w <= ToLower(a + b)
  {
    assert forall i :: 0 <= i < |a| ==> ToLower(a + b)[i] == ToLower(a)[i];
  }

  lemma {:induction false} ColumnsRead(c: CteEntry, t: string)
    requires c.Valid() && Ends(t)
    ensures AfterColumns(PrintColumns(c, t)) == Some(PrintAs(c, t))
  {
    PrintedEnds(c, t);
    Trimmed(PrintAs(c, t));
    if c.columns.Some? {
      var b := c.columns.value;
      ParenMatched(b, " " + PrintAs(c, t));
      var s := PrintColumns(c, t);
      assert s[|SqlPrint.Text(b)| + 2..] == " " + PrintAs(c, t);
    }
  }

  lemma {:induction false} AsRead(c: CteEntry, t: string)
    requires c.Valid() && Ends(t)
    ensures "as" <= ToLower(PrintAs(c, t)) && TrimSpace(PrintAs(c, t)[2..]) == PrintMaterialized(c, t)
  {
    LowerPrefix("as", "AS", " " + PrintMaterialized(c, t));
    PrintedEnds(c, t);
    Trimmed(PrintMaterialized(c, t));
    assert PrintAs(c, t)[2..] == " " + PrintMaterialized(c, t);
  }

  lemma {:induction false} MaterializedRead(c: CteEntry, t: string)
    requires c.Valid() && Ends(t)
    ensures AfterMaterialized(PrintMaterialized(c, t)) == PrintBody(c, t)
  {
    PrintedEnds(c, t);
    match c.materialized
    case None => NotMaterializedWord(PrintBody(c, t));
    case Some(true) => MaterializedWord(PrintBody(c, t));
    case Some(false) => NotWord(PrintBody(c, t));
  }

  lemma {:induction false} NotMaterializedWord(s: string)
    requires s != "" && s[0] == '('
    ensures AfterMaterialized(s) == s
  {
    assert ToLower(s)[0] == '(';
  }

  lemma {:induction false} MaterializedWord(s: string)
    requires Ends(s) && s[0] == '('
    ensures AfterMaterialized("MATERIALIZED" + (" " + s)) == s
  {
    var u := "MATERIALIZED" + (" " + s);
    assert ToLower(u)[0] == 'm';
    LowerPrefix("materialized", "MATERIALIZED", " " + s);
    assert u[12..] == " " + s;
    Trimmed(s);
  }

  lemma {:induction false} NotWord(s: string)
    requires Ends(s) && s[0] == '('
    ensures AfterMaterialized("NOT MATERIALIZED" + (" " + s)) == s
  {
    var u := "NOT MATERIALIZED" + (" " + s);
    LowerPrefix("not materialized", "NOT MATERIALIZED", " " + s);
    assert u[16..] == " " + s;
    Trimmed(s);
  }

  lemma {:induction false} EntryRead(c: CteEntry, t: string)
    requires c.Valid() && Ends(t)
    ensures NextCte(PrintEntry(c, t)) == AfterBody(PrintBody(c, t))
  {
    NameRead(c, t);
    ColumnsRead(c, t);
    AsRead(c, t);
    MaterializedRead(c, t);
    PartsRead(PrintEntry(c, t), PrintColumns(c, t), PrintAs(c, t), PrintMaterialized(c, t));
  }

  lemma {:induction false} NameLength(n: CteName, t: string)
    requires n.Valid()
    ensures IdentLen(n.Text() + (" " + t)) == |n.Text()| > 0
  {
    match n
    case InQuotes(q, x) =>
      QuotedIdentReadsBack(q, x, " " + t);
    case InBrackets(x) =>
      BracketName(x, " " + t);
    case Bare(x) =>
      PlainName(x, " " + t);
  }

  lemma {:induction false} NameRead(c: CteEntry, t: string)
    requires c.Valid() && Ends(t)
    ensures var s := PrintEntry(c, t); IdentLen(s) > 0 && TrimSpace(s[IdentLen(s)..]) == PrintColumns(c, t)
  {
    var s := PrintEntry(c, t);
    NameLength(c.name, PrintColumns(c, t));
    assert s[IdentLen(s)..] == " " + PrintColumns(c, t);
    PrintedEnds(c, t);
    Trimmed(PrintColumns(c, t));
  }

  lemma {:induction false} PartsRead(entry: string, columns: string, as': string, materialized: string)
    requires IdentLen(entry) > 0 && TrimSpace(entry[IdentLen(entry)..]) == columns
    requires AfterColumns(columns) == Some(as')
    requires "as" <= ToLower(as') && TrimSpace(as'[2..]) == materialized
    ensures NextCte(entry) == AfterBody(AfterMaterialized(materialized))
  {
  }

  lemma {:induction false} BodyRead(c: CteEntry, t: string)
    requires c.Valid()
    ensures AfterBody(PrintBody(c, t)) ==
      var rest := TrimSpace(t);
      if "," <= rest then More(TrimSpace(rest[1..])) else Cte.Body(rest)
  {
    ParenMatched(c.body, t);
    assert PrintBody(c, t)[|SqlPrint.Text(c.body)| + 2..] == t;
  }

  /** Only SELECT and VALUES, in any case, make a WITH query a Read. */
  function KindAfter(kw: string): Kind {
    if ToLower(kw) == "select" || ToLower(kw) == "values" then Read else Write
  }

  /** The loop over the list consumes every entry and comes to the keyword. */
  lemma {:induction false} ListRead(cs: seq<CteEntry>, kw: string, more: string)
    requires cs != [] && (forall c :: c in cs ==> c.Valid())
    requires kw != "" && (forall i :: 0 <= i < |kw| ==> IsWordByte(kw[i]))
    requires more != "" ==> !IsWordByte(more[0])
    requires Ends(kw + more)
    ensures WithList(PrintList(cs, kw + more)) == KindAfter(kw)
    decreases |cs|
  {
    assert cs[0] in cs;
    if |cs| == 1 {
      assert IsWordByte((kw + more)[0]);
      LastRead(cs[0], kw + more);
      KeywordRead(kw, more);
    } else {
      assert forall c :: c in cs[1..] ==> c in cs;
      ListEnds(cs[1..], kw + more);
      StepRead(cs[0], PrintList(cs[1..], kw + more));
      ListRead(cs[1..], kw, more);
    }
  }

  lemma {:induction false} LastRead(c: CteEntry, t: string)
    requires c.Valid() && Ends(t) && !IsSpace(t[0]) && t[0] != ','
    ensures NextCte(PrintEntry(c, " " + t)) == Cte.Body(t)
  {
    EntryRead(c, " " + t);
    BodyRead(c, " " + t);
    Trimmed(t);
  }

  lemma {:induction false} StepRead(c: CteEntry, list: string)
    requires c.Valid() && Ends(list) && !IsSpace(list[0])
    ensures NextCte(PrintEntry(c, "," + (" " + list))) == More(list)
  {
    var u := "," + (" " + list);
    EntryRead(c, u);
    BodyRead(c, u);
    Trimmed(u);
    assert u[1..] == " " + list;
    Trimmed(list);
  }

  lemma {:induction false} NameStarts(n: CteName, t: string)
    requires n.Valid()
    ensures !IsSpace((n.Text() + t)[0])
  {
    if n.Bare? {
      assert n.name[0] in n.name && (n.Text() + t)[0] == n.name[0];
    }
  }

  lemma {:induction false} ListEnds(cs: seq<CteEntry>, t: string)
    requires cs != [] && (forall c :: c in cs ==> c.Valid()) && Ends(t)
    ensures Ends(PrintList(cs, t)) && !IsSpace(PrintList(cs, t)[0])
  {
    assert cs[0] in cs;
    if |cs| == 1 {
      PrintedEnds(cs[0], " " + t);
      NameStarts(cs[0].name, " " + PrintColumns(cs[0], " " + t));
    } else {
      assert forall c :: c in cs[1..] ==> c in cs;
      ListEnds(cs[1..], t);
      var more := "," + (" " + PrintList(cs[1..], t));
      PrintedEnds(cs[0], more);
      NameStarts(cs[0].name, " " + PrintColumns(cs[0], more));
    }
  }

  lemma {:induction false} RunOfWord(kw: string, more: string)
    requires forall i :: 0 <= i < |kw| ==> IsWordByte(kw[i])
    requires more != "" ==> !IsWordByte(more[0])
    ensures Run(false, kw + more) == |kw|
  {
    var s := kw + more;
    assert forall i :: 0 <= i < |kw| ==> s[i] == kw[i];
    assert more != "" ==> s[|kw|] == more[0];
  }

  lemma {:induction false} KeywordRead(kw: string, more: string)
    requires forall i :: 0 <= i < |kw| ==> IsWordByte(kw[i])
    requires more != "" ==> !IsWordByte(more[0])
    ensures FirstWord(kw + more) == kw
  {
    RunOfWord(kw, more);
  }

  lemma {:induction false} RecursiveRead(recursive: bool, list: string)
    requires Ends(list) && !IsSpace(list[0]) && (!recursive ==> AfterRecursive(list) == list)
    ensures With(" " + PrintRecursive(recursive, list)) == WithList(list)
  {
    Trimmed(PrintRecursive(recursive, list));
    if recursive {
      RecursiveWord(list);
    }
  }

  /** The first name of the list is not taken for the keyword RECURSIVE. */
  predicate Unambiguous(recursive: bool, cs: seq<CteEntry>)
    requires cs != []
  {
    !recursive ==> !(cs[0].name.Bare? && ToLower(cs[0].name.name) == "recursive")
  }

  lemma {:induction false} NoRecursiveWord(n: CteName, t: string)
    requires n.Valid() && !(n.Bare? && ToLower(n.name) == "recursive")
    ensures AfterRecursive(n.Text() + (" " + t)) == n.Text() + (" " + t)
  {
    var s := n.Text() + (" " + t);
    if n.Bare? {
      BareNotRecursive(n.name, t);
    } else {
      assert s[0] == n.Text()[0] && ToLower(s)[0] == s[0];
    }
  }

  lemma {:induction false} BareNotRecursive(x: string, t: string)
    requires x != "" && (forall c :: c in x ==> WordByte(c) || c == '.') && ToLower(x) != "recursive"
    ensures AfterRecursive(x + (" " + t)) == x + (" " + t)
  {
    var s := x + (" " + t);
    assert ToLower(s)[..|x|] == ToLower(x) && ToLower(s)[|x|] == ' ';
    if |x| > 9 {
      assert s[9] == x[9] && x[9] in x;
    }
  }

  lemma {:induction false} ListNotRecursive(recursive: bool, cs: seq<CteEntry>, t: string)
    requires cs != [] && (forall c :: c in cs ==> c.Valid()) && Unambiguous(recursive, cs)
    ensures !recursive ==> AfterRecursive(PrintList(cs, t)) == PrintList(cs, t)
  {
    assert cs[0] in cs;
    if !recursive {
      var more := if |cs| == 1 then " " + t else "," + (" " + PrintList(cs[1..], t));
      NoRecursiveWord(cs[0].name, PrintColumns(cs[0], more));
    }
  }

  lemma {:induction false} RecursiveWord(list: string)
    requires Ends(list) && !IsSpace(list[0])
    ensures AfterRecursive("RECURSIVE" + (" " + list)) == list
  {
    var s := "RECURSIVE" + (" " + list);
    LowerPrefix("recursive", "RECURSIVE", " " + list);
    assert s[9] == ' ' && s[9..] == " " + list;
    Trimmed(list);
  }

  /** For every printed query: names and bodies hold what they like, and the verdict is Read exactly
      when the keyword after the list is SELECT or VALUES, in any case. */
  lemma {:induction false} PrintedQueryVerdict(recursive: bool, cs: seq<CteEntry>, kw: string, tail: SqlPrint.Body)
    requires cs != [] && (forall c :: c in cs ==> c.Valid()) && Unambiguous(recursive, cs) && ValidEnd(kw, tail)
    ensures ToLower(kw) == "select" || ToLower(kw) == "values" ==>
      Classify(PrintQuery(recursive, cs, kw, tail)) == Success(Read)
    ensures ToLower(kw) != "select" && ToLower(kw) != "values" ==>
      Classify(PrintQuery(recursive, cs, kw, tail)) == Success(Write)
  {
    QueryUnchanged(recursive, cs, kw, tail);
    QueryVerdict(recursive, cs, kw, SqlPrint.Text(tail));
  }

  /** Trimming takes spaces off the tail only. */
  lemma {:induction false} QueryVerdict(recursive: bool, cs: seq<CteEntry>, kw: string, text: string)
    requires cs != [] && (forall c :: c in cs ==> c.Valid()) && Unambiguous(recursive, cs)
    requires kw != "" && (forall i :: 0 <= i < |kw| ==> IsWordByte(kw[i]))
    requires text != "" ==> !IsWordByte(text[0])
    ensures Verdict("WITH" + (" " + PrintRecursive(recursive, PrintList(cs, kw + text))))
         == Success(KindAfter(kw))
  {
    assert IsWordByte(kw[|kw| - 1]);
    var more := TrimRight(text);
    var list := PrintList(cs, kw + more);
    TrimEnd(kw, text);
    ListEnds(cs, kw + more);
    ListRead(cs, kw, more);
    ListNotRecursive(recursive, cs, kw + more);
    RecursiveRead(recursive, list);
    QueryTrimmed(recursive, cs, kw, text);
    WithRead("WITH" + (" " + PrintRecursive(recursive, PrintList(cs, kw + text))), PrintRecursive(recursive, list));
  }

  /** The verdict on a text that, trimmed, starts with the keyword WITH. */
  lemma {:induction false} WithRead(text: string, s: string)
    requires TrimSpace(text) == "WITH" + (" " + s)
    ensures Verdict(text) == Success(With(" " + s))
  {
    var q := "WITH" + (" " + s);
    RunOfWord("WITH", " " + s);
    assert q[..4] == "WITH" && q[4..] == " " + s;
    assert ToLower("WITH") == "with";
  }

  lemma {:induction false} QueryTrimmed(recursive: bool, cs: seq<CteEntry>, kw: string, text: string)
    requires cs != [] && (forall c :: c in cs ==> c.Valid()) && Ends(kw)
    ensures TrimSpace("WITH" + (" " + PrintRecursive(recursive, PrintList(cs, kw + text))))
         == "WITH" + (" " + PrintRecursive(recursive, PrintList(cs, kw + TrimRight(text))))
  {
    ListEnds(cs, kw);
    ListAppend(cs, kw, text);
    ListAppend(cs, kw, TrimRight(text));
    RecursiveTrimmed(recursive, PrintList(cs, kw), text);
  }

  lemma {:induction false} RecursiveTrimmed(recursive: bool, list: string, text: string)
    requires Ends(list)
    ensures TrimSpace("WITH" + (" " + PrintRecursive(recursive, list + text)))
         == "WITH" + (" " + PrintRecursive(recursive, list + TrimRight(text)))
  {
    RecursiveAppend(recursive, list, text);
    RecursiveAppend(recursive, list, TrimRight(text));
    TrimTail("WITH" + (" " + PrintRecursive(recursive, list)), text);
  }

  lemma {:induction false} TrimTail(a: string, text: string)
    requires Ends(a) && !IsSpace(a[0])
    ensures TrimSpace(a + text) == a + TrimRight(text)
  {
    TrimEnd(a, text);
    assert (a + text)[0] == a[0];
  }

  lemma {:induction false} RecursiveAppend(recursive: bool, list: string, b: string)
    ensures "WITH" + (" " + PrintRecursive(recursive, list + b)) == ("WITH" + (" " + PrintRecursive(recursive, list))) + b
  {
    if recursive {
      Regrouped("RECURSIVE", list, b);
    }
    Regrouped("WITH", PrintRecursive(recursive, list), b);
  }

  lemma {:induction false} Regrouped(w: string, s: string, b: string)
    ensures w + (" " + (s + b)) == (w + (" " + s)) + b
  {
  }

  lemma {:induction false} ListAppend(cs: seq<CteEntry>, a: string, b: string)
    requires cs != []
    ensures PrintList(cs, a + b) == PrintList(cs, a) + b
  {
    if |cs| == 1 {
      EntryAppend(cs[0], " ", a, b);
    } else {
      ListAppend(cs[1..], a, b);
      EntryAppend(cs[0], ", ", PrintList(cs[1..], a), b);
      Comma(PrintList(cs[1..], a) + b);
      Comma(PrintList(cs[1..], a));
    }
  }

  lemma {:induction false} Comma(s: string)
    ensures "," + (" " + s) == ", " + s
  {
  }

  lemma {:induction false} EntryAppend(c: CteEntry, p: string, a: string, b: string)
    ensures PrintEntry(c, p + (a + b)) == PrintEntry(c, p + a) + b
  {
    assert p + (a + b) == (p + a) + b;
    assert PrintBody(c, (p + a) + b) == PrintBody(c, p + a) + b;
    assert PrintMaterialized(c, (p + a) + b) == PrintMaterialized(c, p + a) + b;
    assert PrintAs(c, (p + a) + b) == PrintAs(c, p + a) + b;
    assert PrintColumns(c, (p + a) + b) == PrintColumns(c, p + a) + b;
  }

  // ---------- lists that are not read ----------

  /** The text starts with this word, in any case. */
  predicate StartsWith(u: string, w: string) {
    w <= ToLower(u)
  }

  /** Where a name should be there is none. */
  lemma {:induction false} NoName(u: string)
    requires u == "" || !(WordByte(u[0]) || u[0] in {'.', '"', '`', '['})
    ensures WithList(u) == Write
  {
    assert u == "" + u;
    PlainName("", u);
  }

  /** After the name, and its columns, there is no AS. */
  lemma {:induction false} NoAs(n: CteName, columns: Option<SqlPrint.Body>, u: string)
    requires n.Valid() && (columns.Some? ==> WellFormed(columns.value, Some(')')))
    requires Ends(u) && !IsSpace(u[0]) && u[0] != '(' && !StartsWith(u, "as")
    ensures WithList(n.Text() + (" " + (if columns.Some? then Parens(columns.value) + (" " + u) else u))) == Write
  {
    var t := if columns.Some? then Parens(columns.value) + (" " + u) else u;
    NameLength(n, t);
    var s := n.Text() + (" " + t);
    assert s[IdentLen(s)..] == " " + t;
    Trimmed(t);
    ColumnsSkipped(columns, u);
    GivenUp(s, t, u);
  }

  lemma {:induction false} ColumnsSkipped(columns: Option<SqlPrint.Body>, u: string)
    requires columns.Some? ==> WellFormed(columns.value, Some(')'))
    requires Ends(u) && !IsSpace(u[0]) && u[0] != '('
    ensures AfterColumns(if columns.Some? then Parens(columns.value) + (" " + u) else u) == Some(u)
  {
    if columns.Some? {
      var b := columns.value;
      ParenMatched(b, " " + u);
      assert (Parens(b) + (" " + u))[|SqlPrint.Text(b)| + 2..] == " " + u;
      Trimmed(u);
    }
  }

  lemma {:induction false} GivenUp(entry: string, columns: string, as': string)
    requires IdentLen(entry) > 0 && TrimSpace(entry[IdentLen(entry)..]) == columns
    requires AfterColumns(columns) == Some(as') && !("as" <= ToLower(as'))
    ensures WithList(entry) == Write
  {
  }

  /** After AS there is no parenthesis. */
  lemma {:induction false} NoBody(n: CteName, u: string)
    requires n.Valid() && Ends(u) && !IsSpace(u[0]) && u[0] != '('
    requires !StartsWith(u, "materialized") && !StartsWith(u, "not materialized")
    ensures WithList(n.Text() + (" " + ("AS" + (" " + u)))) == Write
  {
    AsFollows(n, u);
    assert AfterMaterialized(u) == u;
  }

  /** The parenthesis after AS is not closed. */
  lemma {:induction false} OpenBody(n: CteName, b: SqlPrint.Body)
    requires n.Valid() && WellFormed(b, None) && Ends("(" + SqlPrint.Text(b))
    ensures WithList(n.Text() + (" " + ("AS" + (" " + ("(" + SqlPrint.Text(b)))))) == Write
  {
    var u := "(" + SqlPrint.Text(b);
    AsFollows(n, u);
    assert ToLower(u)[0] == '(';
    assert AfterMaterialized(u) == u;
    BodyPassed(b, "", 1);
    assert SqlPrint.Text(b) + "" == SqlPrint.Text(b);
    ParenMatchedAt(SqlPrint.Text(b), "", 0);
  }

  lemma {:induction false} AsFollows(n: CteName, u: string)
    requires n.Valid() && Ends(u) && !IsSpace(u[0])
    ensures NextCte(n.Text() + (" " + ("AS" + (" " + u)))) == AfterBody(AfterMaterialized(u))
  {
    var t := "AS" + (" " + u);
    NameLength(n, t);
    var s := n.Text() + (" " + t);
    assert s[IdentLen(s)..] == " " + t;
    Trimmed(t);
    LowerPrefix("as", "AS", " " + u);
    assert t[2..] == " " + u;
    Trimmed(u);
    PartsRead(s, t, t, u);
  }

  /** RECURSIVE before a parenthesis is the keyword, too, so that no name follows. */
  lemma {:induction false} RecursiveParen(x: string, t: string)
    requires ToLower(x) == "recursive" && Ends("(" + t)
    ensures With(" " + (x + ("(" + t))) == Write
  {
    var (u, s) := ("(" + t, x + ("(" + t));
    LowerPrefix("recursive", x, u);
    assert |x| == 9 && s[9] == u[0] == '(' && s[9..] == u;
    assert ToLower(x)[0] == 'r' && s[0] == x[0];
    Trimmed(s);
    Trimmed(u);
    assert AfterRecursive(s) == u;
    NoName(u);
  }
}
