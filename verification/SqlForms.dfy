/** The scanner and the classifier in terms of the text: what each form of comment, quoted text and
    terminator is turned into, and the verdict for each first word. */
module SqlForms {
  import opened Wrappers
  import opened Strings
  import opened SqlScan
  import opened SqlStrip
  import opened SqlClassify

  // ---------- comments ----------

  /** No comment ends inside the text. */
  predicate NoEnd(c: string) {
    forall i :: 0 <= i < |c| - 1 ==> !(c[i] == '*' && c[i + 1] == '/')
  }

  lemma {:induction false} EndFound(c: string, t: string)
    requires NoEnd(c)
    ensures IndexOf(c + ("*/" + t), "*/") == |c|
    decreases |c|
  {
    var s := c + ("*/" + t);
    if c == "" {
      assert s == "*/" + t;
    } else {
      assert s[0] == c[0] && s[1] == if |c| > 1 then c[1] else '*';
      assert !("*/" <= s);
      assert s[1..] == c[1..] + ("*/" + t);
      forall i | 0 <= i < |c[1..]| - 1
        ensures !(c[1..][i] == '*' && c[1..][i + 1] == '/')
      {
        assert c[1..][i] == c[i + 1] && c[1..][i + 1] == c[i + 2];
      }
      EndFound(c[1..], t);
    }
  }

  lemma {:induction false} EndMissing(c: string)
    requires NoEnd(c)
    ensures IndexOf(c, "*/") == -1
    decreases |c|
  {
    if c != "" {
      assert |c| > 1 ==> !(c[0] == '*' && c[0 + 1] == '/');
      assert !("*/" <= c);
      forall i | 0 <= i < |c[1..]| - 1
        ensures !(c[1..][i] == '*' && c[1..][i + 1] == '/')
      {
        assert c[1..][i] == c[i + 1] && c[1..][i + 1] == c[i + 2];
      }
      EndMissing(c[1..]);
    }
  }

  /** A block comment, whatever it holds, is one token up to its first end. */
  lemma {:induction false} BlockComment(c: string, t: string)
    requires NoEnd(c)
    ensures NextToken("/*" + c + "*/" + t) == Comment(|c| + 4)
    ensures StripFrom("/*" + c + "*/" + t) == StripFrom(t).After(" ")
    ensures Tail("/*" + c + "*/" + t) == Tail(t)
  {
    var s := "/*" + c + "*/" + t;
    assert s[0] == '/' && s[1] == '*';
    assert s[2..] == c + ("*/" + t);
    EndFound(c, t);
    assert s[|c| + 4..] == t;
  }

  lemma {:induction false} OpenBlockComment(c: string)
    requires NoEnd(c)
    ensures StripFrom("/*" + c) == Tail("/*" + c) == Stopped(UnterminatedComment)
  {
    var s := "/*" + c;
    assert s[0] == '/' && s[1] == '*' && s[2..] == c;
    EndMissing(c);
  }

  /** A line comment goes up to its newline; the newline belongs to it. */
  lemma {:induction false} LineComment(c: string, t: string)
    requires '\n' !in c
    ensures NextToken("--" + c + "\n" + t) == Comment(|c| + 3)
    ensures StripFrom("--" + c + "\n" + t) == StripFrom(t).After(" ")
    ensures Tail("--" + c + "\n" + t) == Tail(t)
  {
    var s := "--" + c + "\n" + t;
    assert s[0] == '-' && s[1] == '-';
    assert s == ("--" + c) + ['\n'] + t;
    IndexOfByte("--" + c, '\n', t);
    assert s[|c| + 3..] == t;
  }

  /** Without a newline it goes up to the end of the text; behind the terminator it then takes the whole
      statement away. */
  lemma {:induction false} OpenLineComment(c: string)
    requires '\n' !in c
    ensures StripFrom("--" + c) == Kept(" ")
    ensures Tail("--" + c) == Dropped
  {
    var s := "--" + c;
    assert s[0] == '-' && s[1] == '-';
    IndexOfByte(s, '\n', "");
    assert s[|s|..] == "" && " " + "" == " ";
    assert StripFrom("") == Kept("");
    assert NextToken(s) == Comment(|s|);
  }

  // ---------- quoted texts ----------

  /** What stands between quotes: a byte, the quote doubled, or a backslash and a byte. */
  datatype Unit = Plain(c: char) | Doubled | Escape(c: char)

  /** Only in single quotes does a backslash escape. */
  predicate Fits(q: char, u: Unit) {
    match u
    case Plain(c) => c != q && (q == '\'' ==> c != '\\')
    case Doubled => true
    case Escape(_) => q == '\''
  }

  function UnitText(q: char, u: Unit): string {
    match u
    case Plain(c) => [c]
    case Doubled => [q, q]
    case Escape(c) => ['\\', c]
  }

  function Units(q: char, us: seq<Unit>): string {
    if us == [] then "" else UnitText(q, us[0]) + Units(q, us[1..])
  }

  ghost predicate AllFit(q: char, us: seq<Unit>) {
    forall u :: u in us ==> Fits(q, u)
  }

  lemma {:induction false} UnitPassed(q: char, p: string, u: Unit, rest: string)
    requires q != '\\' && Fits(q, u) && rest != ""
    ensures var s := p + UnitText(q, u) + rest;
      QuoteEnd(q, q == '\'', s, |p|) == QuoteEnd(q, q == '\'', s, |p + UnitText(q, u)|)
  {
    var s := p + UnitText(q, u) + rest;
    assert s[|p|] == UnitText(q, u)[0];
    assert !u.Plain? ==> s[|p| + 1] == UnitText(q, u)[1];
  }

  lemma {:induction false} UnitsPassed(q: char, p: string, us: seq<Unit>, rest: string)
    requires q != '\\' && AllFit(q, us) && rest != ""
    ensures QuoteEnd(q, q == '\'', p + Units(q, us) + rest, |p|)
         == QuoteEnd(q, q == '\'', p + Units(q, us) + rest, |p + Units(q, us)|)
    decreases |us|
  {
    if us != [] {
      FirstFits(q, us);
      var (w, r) := (UnitText(q, us[0]), Units(q, us[1..]));
      Regrouped(p, w, r, rest);
      UnitsPassed(q, p + w, us[1..], rest);
      UnitPassed(q, p, us[0], r + rest);
    } else {
      assert p + Units(q, us) == p;
    }
  }

  lemma {:induction false} FirstFits(q: char, us: seq<Unit>)
    requires AllFit(q, us) && us != []
    ensures Fits(q, us[0]) && AllFit(q, us[1..]) && Units(q, us) == UnitText(q, us[0]) + Units(q, us[1..])
  {
    assert us[0] in us && forall u :: u in us[1..] ==> u in us;
  }

  lemma {:induction false} Regrouped(p: string, w: string, r: string, rest: string)
    ensures p + (w + r) + rest == (p + w) + r + rest == p + w + (r + rest)
    ensures p + (w + r) == (p + w) + r
  {
  }

  /** A text in single quotes, double quotes or backticks is one token and is kept as it is. */
  lemma {:induction false} QuotedText(q: char, us: seq<Unit>, t: string)
    requires q == '\'' || q == '"' || q == '`'
    requires AllFit(q, us) && (t == "" || t[0] != q)
    ensures var x := [q] + Units(q, us) + [q];
      NextToken(x + t) == Piece(|x|) && StripFrom(x + t) == StripFrom(t).After(x)
  {
    var x := [q] + Units(q, us) + [q];
    var s := x + t;
    assert s == [q] + Units(q, us) + ([q] + t);
    UnitsPassed(q, [q], us, [q] + t);
    var n := |[q] + Units(q, us)|;
    assert s[n] == q && (t != "" ==> s[n + 1] == t[0]);
    assert QuoteEnd(q, q == '\'', s, n) == n + 1;
    assert s[..|x|] == x && s[|x|..] == t;
  }

  /** A quote that is not closed. */
  lemma {:induction false} OpenQuote(q: char, us: seq<Unit>)
    requires q == '\'' || q == '"' || q == '`'
    requires AllFit(q, us)
    ensures StripFrom([q] + Units(q, us)) == Stopped(
      if q == '\'' then UnterminatedString else if q == '"' then UnterminatedIdent else UnterminatedBacktick)
    decreases |us|
  {
    var s := [q] + Units(q, us);
    OpenUnits(q, [q], us);
    assert QuoteEnd(q, q == '\'', s, 1) == 0;
  }

  lemma {:induction false} OpenUnits(q: char, p: string, us: seq<Unit>)
    requires q != '\\' && AllFit(q, us)
    ensures QuoteEnd(q, q == '\'', p + Units(q, us), |p|) == 0
    decreases |us|
  {
    var s := p + Units(q, us);
    if us != [] {
      FirstFits(q, us);
      var (w, r) := (UnitText(q, us[0]), Units(q, us[1..]));
      Regrouped(p, w, r, "");
      OpenUnits(q, p + w, us[1..]);
      if r == "" {
        LastUnit(q, p, us[0]);
        assert p + w == s;
      } else {
        UnitPassed(q, p, us[0], r);
      }
    }
  }

  lemma {:induction false} LastUnit(q: char, p: string, u: Unit)
    requires q != '\\' && Fits(q, u)
    ensures QuoteEnd(q, q == '\'', p + UnitText(q, u), |p|) == 0
  {
    var s := p + UnitText(q, u);
    assert s[|p|] == UnitText(q, u)[0];
    assert !u.Plain? ==> s[|p| + 1] == UnitText(q, u)[1];
  }

  // ---------- dollar quotes ----------

  predicate IsTag(tag: string) {
    forall i :: 0 <= i < |tag| ==>
      || 'a' <= tag[i] <= 'z' || 'A' <= tag[i] <= 'Z' || '0' <= tag[i] <= '9' || tag[i] == '_'
  }

  /** A text between two occurrences of `$tag$` is one token, up to the first one that closes it. */
  lemma {:induction false} DollarText(tag: string, c: string, t: string)
    requires IsTag(tag) && IndexOf(c + ("$" + tag + "$"), "$" + tag + "$") == |c|
    ensures var x := "$" + tag + "$" + c + ("$" + tag + "$");
      NextToken(x + t) == Piece(|x|) && StripFrom(x + t) == StripFrom(t).After(x)
  {
    DollarSkipped(tag, c, t);
    var x := "$" + tag + "$" + c + ("$" + tag + "$");
    assert (x + t)[0] == '$' && (x + t)[..|x|] == x && (x + t)[|x|..] == t;
  }

  lemma {:induction false} DollarSkipped(tag: string, c: string, t: string)
    requires IsTag(tag) && IndexOf(c + ("$" + tag + "$"), "$" + tag + "$") == |c|
    ensures var x := "$" + tag + "$" + c + ("$" + tag + "$"); SkipDollar(x + t) == |x|
  {
    var d := "$" + tag + "$";
    var x := d + c + d;
    var s := x + t;
    assert s[0] == '$' && s[|tag| + 1] == d[|tag| + 1] == '$';
    forall j | 1 <= j < |tag| + 1
      ensures IsTagByte(s[j])
    {
      assert s[j] == tag[j - 1];
    }
    TagEndExact(s, 1, |tag| + 1);
    assert s[..|d|] == d && s[|d|..] == c + d + t;
    IndexOfLocal(c + d, d, c + d + t);
  }

  /** A dollar sign is kept by itself when no tag follows it, ... */
  lemma {:induction false} DollarNoTag(tag: string, t: string)
    requires IsTag(tag) && (t == "" || !(t[0] == '$' || IsTag([t[0]])))
    ensures StripFrom("$" + tag + t) == StripFrom(tag + t).After("$")
  {
    var s := "$" + tag + t;
    assert s[1..] == tag + t;
    TagOpen(s, 1, tag, t);
    assert s == "$" + (tag + t);
    DollarKept(tag + t);
  }

  lemma {:induction false} DollarKept(t: string)
    requires SkipDollar("$" + t) == 0
    ensures StripFrom("$" + t) == StripFrom(t).After("$")
  {
    assert ("$" + t)[..1] == "$" && ("$" + t)[1..] == t;
  }

  lemma {:induction false} TagOpen(s: string, i: nat, tag: string, t: string)
    requires 0 < i <= |s| && s[i..] == tag + t && IsTag(tag) && (t == "" || !(t[0] == '$' || IsTag([t[0]])))
    ensures TagEnd(s, i) == 0
    decreases |tag|
  {
    if tag != "" {
      assert s[i] == s[i..][0] == tag[0];
      assert s[i + 1..] == s[i..][1..] == tag[1..] + t;
      TagOpen(s, i + 1, tag[1..], t);
    } else if t != "" {
      assert s[i] == s[i..][0] == t[0];
      assert [t[0]][0] == t[0];
    }
  }

  /** ... and when the tag does not come again. */
  lemma {:induction false} DollarOpen(tag: string, t: string)
    requires IsTag(tag) && IndexOf(t, "$" + tag + "$") < 0
    ensures StripFrom("$" + tag + "$" + t) == StripFrom(tag + "$" + t).After("$")
  {
    var d := "$" + tag + "$";
    var s := d + t;
    forall j | 1 <= j < |tag| + 1
      ensures IsTagByte(s[j])
    {
      assert s[j] == tag[j - 1];
    }
    TagEndExact(s, 1, |tag| + 1);
    assert s[..|d|] == d && s[|d|..] == t;
    assert s == "$" + (tag + "$" + t);
    DollarKept(tag + "$" + t);
  }

  // ---------- terminators and other bytes ----------

  /** All other bytes are kept one by one; two of them open a comment. */
  lemma {:induction false} OtherByte(c: char, t: string)
    requires c != '\'' && c != '"' && c != '`' && c != '$' && c != ';'
    requires c == '-' ==> t == "" || t[0] != '-'
    requires c == '/' ==> t == "" || t[0] != '*'
    ensures NextToken([c] + t) == Piece(1) && StripFrom([c] + t) == StripFrom(t).After([c])
  {
    var s := [c] + t;
    assert s[1..] == t && s[..1] == [c];
    assert t != "" ==> s[1] == t[0];
  }

  /** Behind the terminator only white space, terminators and comments may follow. */
  lemma {:induction false} Terminator(t: string)
    ensures StripFrom(";" + t) == Tail(t)
    ensures Tail("") == Kept("")
    ensures forall c | c in {' ', '\t', '\n', '\r', ';'} :: Tail([c] + t) == Tail(t)
  {
    assert (";" + t)[1..] == t;
    forall c | c in {' ', '\t', '\n', '\r', ';'}
      ensures Tail([c] + t) == Tail(t)
    {
      assert ([c] + t)[1..] == t;
    }
  }

  lemma {:induction false} SecondStatement(c: char, t: string)
    requires c !in {' ', '\t', '\n', '\r', ';'}
    requires c == '-' ==> t == "" || t[0] != '-'
    requires c == '/' ==> t == "" || t[0] != '*'
    ensures Tail([c] + t) == Stopped(MultipleStatements)
  {
    assert t != "" ==> ([c] + t)[1] == t[0];
  }

  // ---------- the verdict ----------

  /** Letters, digits, underscores, and all bytes that are not ASCII. */
  predicate WordByte(c: char) {
    'a' <= c <= 'z' || 'A' <= c <= 'Z' || '0' <= c <= '9' || c == '_' || c as int >= 0x80
  }

  /** The statement, stripped and trimmed, begins with this word, which may be empty. */
  ghost predicate Begins(sql: string, w: string) {
    && Strip(sql).Success?
    && var s := TrimSpace(Strip(sql).value);
       && s != "" && w <= s
       && (forall i :: 0 <= i < |w| ==> WordByte(w[i]))
       && (|w| < |s| ==> !WordByte(s[|w|]))
  }

  lemma {:induction false} BeginsFirst(s: string, w: string)
    requires w <= s && (forall i :: 0 <= i < |w| ==> WordByte(w[i])) && (|w| < |s| ==> !WordByte(s[|w|]))
    ensures FirstWord(s) == w
  {
    assert forall i :: 0 <= i < |w| ==> s[i] == w[i] && IsWordByte(s[i]);
  }

  /** The verdict by the first word, in any case. After WITH it is a matter of the list. */
  lemma {:induction false} VerdictByWord(sql: string, w: string)
    requires Begins(sql, w)
    ensures ToLower(w) in ["select", "show", "explain", "describe", "desc", "values", "table"] ==>
      Classify(sql) == Success(Read)
    ensures ToLower(w) !in ["select", "show", "explain", "describe", "desc", "values", "table", "with"] ==>
      Classify(sql) == Success(Write)
  {
    BeginsFirst(TrimSpace(Strip(sql).value), w);
  }

  /** Every text is refused, or empty, or begins with some word, so that the cases above are all. */
  lemma {:induction false} NoVerdict(sql: string)
    ensures Strip(sql).Failure? ==> Classify(sql) == Failure(NotOneStatement(Strip(sql).error))
    ensures Strip(sql).Success? && TrimSpace(Strip(sql).value) == "" ==> Classify(sql) == Failure(EmptyStatement)
    ensures Strip(sql).Success? && TrimSpace(Strip(sql).value) != "" ==> exists w :: Begins(sql, w)
  {
    if Strip(sql).Success? && TrimSpace(Strip(sql).value) != "" {
      var s := TrimSpace(Strip(sql).value);
      assert Begins(sql, s[..Run(false, s)]);
    }
  }

  // ---------- WITH ----------

  /** Reading the list from `s` on comes to the body of the statement. */
  ghost predicate Reaches(s: string, body: string)
    decreases |s|
  {
    match NextCte(s)
    case GiveUp => false
    case More(rest) => Reaches(rest, body)
    case Body(rest) => rest == body
  }

  /** A WITH query has the verdict of its list, which starts behind RECURSIVE, if that is there. */
  lemma {:induction false} WithVerdict(sql: string, w: string)
    requires Begins(sql, w) && ToLower(w) == "with"
    ensures var s := TrimSpace(Strip(sql).value);
      Classify(sql) == Success(WithList(AfterRecursive(TrimSpace(s[|w|..]))))
  {
    BeginsFirst(TrimSpace(Strip(sql).value), w);
  }

  /** A list that is read to its end is a Read exactly for SELECT and VALUES; any other is a Write. */
  lemma {:induction false} ListVerdict(s: string)
    ensures WithList(s) == Read <==>
      exists body, w :: Reaches(s, body) && FirstWord(body) == w && (ToLower(w) == "select" || ToLower(w) == "values")
    decreases |s|
  {
    match NextCte(s)
    case GiveUp =>
    case More(rest) =>
      ListVerdict(rest);
      forall body
        ensures Reaches(s, body) <==> Reaches(rest, body)
      {
      }
    case Body(rest) =>
      if WithList(s) == Read {
        assert Reaches(s, rest) && FirstWord(rest) == FirstWord(rest);
      }
  }

  // ---------- identifiers ----------

  /** A name in brackets ends at the first closing one; a plain one is made of word bytes and dots. */
  lemma {:induction false} BracketName(x: string, t: string)
    requires ']' !in x
    ensures IdentLen("[" + x + "]" + t) == |x| + 2
    ensures IdentLen("[" + x) == 0
  {
    var s := "[" + x + "]" + t;
    IndexOfByte(x, ']', t);
    assert s[1..] == x + [']'] + t && ("[" + x)[1..] == x;
  }

  lemma {:induction false} PlainName(x: string, t: string)
    requires forall i :: 0 <= i < |x| ==> WordByte(x[i]) || x[i] == '.'
    requires t != "" ==> !(WordByte(t[0]) || t[0] == '.')
    requires x == "" ==> t == "" || t[0] !in {'"', '`', '['}
    ensures IdentLen(x + t) == |x|
  {
    var s := x + t;
    assert forall i :: 0 <= i < |x| ==> s[i] == x[i];
    assert t != "" ==> s[|x|] == t[0];
  }
}
