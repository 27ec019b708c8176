/** The quoting helpers: quoted text is skipped as one token, whatever it holds, and reads back as
    the text that was quoted. */
module SqlQuote {
  import opened Wrappers
  import opened Strings
  import opened SqlScan
  import opened SqlStrip
  import opened SqlIdempotence

  function QuoteIdent(q: char, name: string): string {
    [q] + ReplaceAll(name, q, [q, q]) + [q]
  }

  function QuoteMySQLIdent(name: string): string {
    QuoteIdent('`', name)
  }

  function QuotePostgresIdent(name: string): string {
    QuoteIdent('"', name)
  }

  function EscapeSQLString(s: string): string {
    ReplaceAll(ReplaceAll(s, '\\', "\\\\"), '\'', "''")
  }

  /** The literal that the callers build around an escaped value. */
  function StringLiteral(s: string): string {
    "'" + EscapeSQLString(s) + "'"
  }

  // ---------- how an engine reads a quoted text ----------

  /** MySQL's value of a backslash and the byte after it. */
  function MySQLEscape(c: char): string {
    if c == '0' then [0 as char]
    else if c == 'b' then [8 as char]
    else if c == 'n' then "\n"
    else if c == 'r' then "\r"
    else if c == 't' then "\t"
    else if c == 'Z' then [26 as char]
    else if c == '%' || c == '_' then ['\\', c]
    else [c]
  }

  /** The value of what stands between the quotes. */
  function Value(q: char, backslash: bool, s: string): string {
    if s == "" then ""
    else if backslash && s[0] == '\\' && |s| > 1 then MySQLEscape(s[1]) + Value(q, backslash, s[2..])
    else if s[0] == q && |s| > 1 && s[1] == q then [q] + Value(q, backslash, s[2..])
    else [s[0]] + Value(q, backslash, s[1..])
  }

  // ---------- identifiers ----------

  lemma {:induction false} IdentEnd(q: char, name: string, p: string, t: string)
    requires t == "" || t[0] != q
    ensures QuoteEnd(q, false, p + ReplaceAll(name, q, [q, q]) + [q] + t, |p|)
         == |p| + |ReplaceAll(name, q, [q, q])| + 1
    decreases |name|
  {
    var s := p + ReplaceAll(name, q, [q, q]) + [q] + t;
    if name == "" {
      assert s[|p|] == q && (t != "" ==> s[|p| + 1] == t[0]);
    } else {
      var w := if name[0] == q then [q, q] else [name[0]];
      assert s == (p + w) + ReplaceAll(name[1..], q, [q, q]) + [q] + t;
      assert s[|p|] == w[0] && s[|p| + |w| - 1] == w[|w| - 1];
      IdentEnd(q, name[1..], p + w, t);
    }
  }

  lemma {:induction false} IdentValue(q: char, name: string)
    ensures Value(q, false, ReplaceAll(name, q, [q, q])) == name
  {
    if name != "" {
      var w := if name[0] == q then [q, q] else [name[0]];
      var s := w + ReplaceAll(name[1..], q, [q, q]);
      assert s[|w|..] == ReplaceAll(name[1..], q, [q, q]);
      IdentValue(q, name[1..]);
    }
  }

  /** A quoted identifier is one token, inert to what follows unless that is its own quote, and reads
      back as the name: for both quotes and every name, the empty one and quotes included. */
  lemma {:induction false} QuotedIdentReadsBack(q: char, name: string, t: string)
    requires t == "" || t[0] != q
    ensures var u := QuoteIdent(q, name);
      && SkipQuoted(q, false, u + t) == |u|
      && Value(q, false, u[1..|u| - 1]) == name
  {
    var u := QuoteIdent(q, name);
    IdentEnd(q, name, [q], t);
    assert u + t == [q] + ReplaceAll(name, q, [q, q]) + [q] + t;
    IdentValue(q, name);
    assert u[1..|u| - 1] == ReplaceAll(name, q, [q, q]);
  }

  /** quoteMySQLIdent and quotePostgresIdent, each under its own engine's quote. */
  lemma {:induction false} NamesReadBack(name: string, t: string)
    ensures (t == "" || t[0] != '`') ==>
      && SkipQuoted('`', false, QuoteMySQLIdent(name) + t) == |QuoteMySQLIdent(name)|
      && Value('`', false, QuoteMySQLIdent(name)[1..|QuoteMySQLIdent(name)| - 1]) == name
    ensures (t == "" || t[0] != '"') ==>
      && SkipQuoted('"', false, QuotePostgresIdent(name) + t) == |QuotePostgresIdent(name)|
      && Value('"', false, QuotePostgresIdent(name)[1..|QuotePostgresIdent(name)| - 1]) == name
  {
    if t == "" || t[0] != '`' {
      QuotedIdentReadsBack('`', name, t);
    }
    if t == "" || t[0] != '"' {
      QuotedIdentReadsBack('"', name, t);
    }
  }

  // ---------- string literals ----------

  /** Both replacements at once: what each byte of the value becomes. */
  function Escaped(c: char): string {
    if c == '\\' then "\\\\" else if c == '\'' then "''" else [c]
  }

  lemma {:induction false} EscapeBytewise(s: string)
    requires s != ""
    ensures EscapeSQLString(s) == Escaped(s[0]) + EscapeSQLString(s[1..])
  {
    var first := if s[0] == '\\' then "\\\\" else [s[0]];
    ReplaceAllConcat(first, ReplaceAll(s[1..], '\\', "\\\\"), '\'', "''");
    assert ReplaceAll("", '\'', "''") == "";
    assert first[1..] == if s[0] == '\\' then "\\" else "";
    assert ReplaceAll("\\", '\'', "''") == "\\";
    assert ReplaceAll(first, '\'', "''") == Escaped(s[0]);
  }

  /** The scan passes what one byte of the value becomes. */
  lemma {:induction false} EscapedPassed(c: char, p: string, rest: string)
    requires rest != ""
    ensures QuoteEnd('\'', true, p + Escaped(c) + rest, |p|) == QuoteEnd('\'', true, p + Escaped(c) + rest, |p + Escaped(c)|)
  {
    var (s, w) := (p + Escaped(c) + rest, Escaped(c));
    assert s[|p|] == w[0] && s[|p| + |w| - 1] == w[|w| - 1];
  }

  lemma {:induction false} LiteralEnd(v: string, p: string, t: string)
    requires t == "" || t[0] != '\''
    ensures QuoteEnd('\'', true, p + EscapeSQLString(v) + "'" + t, |p|) == |p| + |EscapeSQLString(v)| + 1
    decreases |v|
  {
    var s := p + EscapeSQLString(v) + "'" + t;
    if v == "" {
      assert s[|p|] == '\'' && (t != "" ==> s[|p| + 1] == t[0]);
    } else {
      EscapeBytewise(v);
      var w := Escaped(v[0]);
      var rest := EscapeSQLString(v[1..]) + "'" + t;
      assert s == (p + w) + EscapeSQLString(v[1..]) + "'" + t;
      LiteralEnd(v[1..], p + w, t);
      assert s == p + w + rest;
      EscapedPassed(v[0], p, rest);
    }
  }

  /** A literal is one token for every value, unless a quote follows it. */
  lemma {:induction false} LiteralIsInert(v: string, t: string)
    requires t == "" || t[0] != '\''
    ensures SkipQuoted('\'', true, StringLiteral(v) + t) == |StringLiteral(v)|
  {
    LiteralEnd(v, "'", t);
    assert StringLiteral(v) + t == "'" + EscapeSQLString(v) + "'" + t;
  }

  /** MySQL reads the literal as the value. */
  lemma {:induction false} MySQLReadsBack(v: string)
    ensures Value('\'', true, EscapeSQLString(v)) == v
  {
    if v != "" {
      EscapeBytewise(v);
      MySQLReadsBack(v[1..]);
      var s := EscapeSQLString(v);
      assert s[|Escaped(v[0])|..] == EscapeSQLString(v[1..]);
    }
  }

  /** PostgreSQL, which reads backslashes as themselves, gets every backslash twice: it reads the
      value back exactly when there is none in it. */
  lemma {:induction false} PostgresReadsBack(v: string)
    ensures Value('\'', false, EscapeSQLString(v)) == ReplaceAll(v, '\\', "\\\\")
    ensures Value('\'', false, EscapeSQLString(v)) == v <==> '\\' !in v
  {
    PostgresValue(v);
    DoubledLength(v);
    if '\\' !in v {
      ReplaceNothing(v, '\\', "\\\\");
    }
  }

  lemma {:induction false} PostgresValue(v: string)
    ensures Value('\'', false, EscapeSQLString(v)) == ReplaceAll(v, '\\', "\\\\")
  {
    if v != "" {
      EscapeBytewise(v);
      PostgresValue(v[1..]);
      PostgresByte(v[0], EscapeSQLString(v[1..]));
    }
  }

  lemma {:induction false} PostgresByte(c: char, rest: string)
    ensures Value('\'', false, Escaped(c) + rest)
         == (if c == '\\' then "\\\\" else [c]) + Value('\'', false, rest)
  {
    var s := Escaped(c) + rest;
    if c == '\\' {
      assert s[1..] == ['\\'] + rest && (['\\'] + rest)[1..] == rest;
    } else {
      assert s[|Escaped(c)|..] == rest;
    }
  }

  lemma {:induction false} DoubledLength(v: string)
    ensures |ReplaceAll(v, '\\', "\\\\")| >= |v|
    ensures '\\' in v ==> |ReplaceAll(v, '\\', "\\\\")| > |v|
  {
    if v != "" {
      DoubledLength(v[1..]);
    }
  }

  // ---------- statements ----------

  /** A byte that the scanner passes over alone, whatever follows. */
  predicate PlainByte(c: char) {
    c != '-' && c != '/' && c != '\'' && c != '"' && c != '`' && c != '$' && c != ';'
  }

  ghost predicate PlainText(w: string) {
    forall i :: 0 <= i < |w| ==> PlainByte(w[i])
  }

  /** The text passes the scan unchanged. */
  predicate Unchanged(s: string) {
    StripFrom(s) == Kept(s)
  }

  lemma {:induction false} PlainByteKept(c: char, t: string)
    requires PlainByte(c) && Unchanged(t)
    ensures Unchanged([c] + t)
  {
    assert NextToken([c] + t) == Piece(1);
    KeptAgain([c], t);
  }

  lemma {:induction false} PlainKept(w: string, t: string)
    requires PlainText(w) && Unchanged(t)
    ensures Unchanged(w + t)
    decreases |w|
  {
    if w == "" {
      assert w + t == t;
    } else {
      var (v, c) := (w[..|w| - 1], w[|w| - 1]);
      assert w + t == v + ([c] + t);
      PlainByteKept(c, t);
      PlainKept(v, [c] + t);
    }
  }

  /** The building blocks of the statements that the agent sends. */
  datatype Segment = Words(text: string) | MySQLName(name: string) | PostgresName(name: string) | Literal(value: string) {
    function Text(): string {
      match this
      case Words(t) => t
      case MySQLName(n) => QuoteMySQLIdent(n)
      case PostgresName(n) => QuotePostgresIdent(n)
      case Literal(v) => StringLiteral(v)
    }

    ghost predicate Valid() {
      Words? ==> text != "" && PlainText(text)
    }
  }

  function Statement(segs: seq<Segment>): string {
    if segs == [] then "" else segs[0].Text() + Statement(segs[1..])
  }

  /** Plain words stand between quoted texts. */
  ghost predicate Printable(segs: seq<Segment>) {
    && (forall s :: s in segs ==> s.Valid())
    && (forall i :: 0 <= i < |segs| - 1 ==> segs[i].Words? || segs[i + 1].Words?)
  }

  /** Whatever the names and values hold, the statement is one statement without a comment. */
  lemma {:induction false} StatementIsOne(segs: seq<Segment>)
    requires Printable(segs)
    ensures Strip(Statement(segs)) == Success(Statement(segs)) && Unchanged(Statement(segs))
  {
    if segs != [] {
      var t := Statement(segs[1..]);
      assert segs[0] in segs && forall s :: s in segs[1..] ==> s in segs;
      StatementIsOne(segs[1..]);
      SegmentKept(segs[0], t) by {
        if |segs| > 1 && !segs[0].Words? {
          assert segs[1] in segs && segs[0 + 1].Words?;
          assert t[0] == segs[1].text[0];
        }
      }
    }
  }

  lemma {:induction false} SegmentKept(seg: Segment, t: string)
    requires seg.Valid() && Unchanged(t)
    requires seg.Words? || t == "" || PlainByte(t[0])
    ensures Unchanged(seg.Text() + t)
  {
    match seg
    case Words(w) => PlainKept(w, t);
    case MySQLName(name) =>
      NamesReadBack(name, t);
      KeptAgain(QuoteMySQLIdent(name), t);
    case PostgresName(name) =>
      NamesReadBack(name, t);
      KeptAgain(QuotePostgresIdent(name), t);
    case Literal(v) =>
      LiteralIsInert(v, t);
      KeptAgain(StringLiteral(v), t);
  }

  const CREATE := Words("CREATE USER ")
  const AT := Words("@")
  const IDENTIFIED := Words(" IDENTIFIED BY ")
  const WITH_LOGIN := Words(" WITH LOGIN PASSWORD ")

  lemma {:induction false} KeywordsAreValid()
    ensures CREATE.Valid() && AT.Valid() && IDENTIFIED.Valid() && WITH_LOGIN.Valid()
  {
  }

  /** The statements that opCreateUser sends to MySQL or MariaDB, and to PostgreSQL. */
  function MySQLCreateUser(user: string, host: string, password: string): seq<Segment> {
    [CREATE, Literal(user), AT, Literal(host), IDENTIFIED, Literal(password)]
  }

  function PostgresCreateUser(user: string, password: string): seq<Segment> {
    [CREATE, PostgresName(user), WITH_LOGIN, Literal(password)]
  }

  lemma {:induction false} CreateUserIsOneStatement(user: string, host: string, password: string)
    ensures var s := Statement(MySQLCreateUser(user, host, password)); Strip(s) == Success(s)
    ensures var s := Statement(PostgresCreateUser(user, password)); Strip(s) == Success(s)
  {
    KeywordsAreValid();
    StatementIsOne(MySQLCreateUser(user, host, password));
    StatementIsOne(PostgresCreateUser(user, password));
  }

  /** The statements, written out: who is created, where, and with which password. */
  lemma {:induction false} CreateUserText(user: string, host: string, password: string)
    ensures Statement(MySQLCreateUser(user, host, password))
         == "CREATE USER " + (StringLiteral(user) + ("@" + (StringLiteral(host) + (" IDENTIFIED BY " + StringLiteral(password)))))
    ensures Statement(PostgresCreateUser(user, password))
         == "CREATE USER " + (QuotePostgresIdent(user) + (" WITH LOGIN PASSWORD " + StringLiteral(password)))
  {
    FourSegments(CREATE, PostgresName(user), WITH_LOGIN, Literal(password));
    FourSegments(AT, Literal(host), IDENTIFIED, Literal(password));
    var rest := [AT, Literal(host), IDENTIFIED, Literal(password)];
    assert MySQLCreateUser(user, host, password) == [CREATE, Literal(user)] + rest;
    TwoMore(CREATE, Literal(user), rest);
  }

  lemma {:induction false} TwoMore(a: Segment, b: Segment, rest: seq<Segment>)
    ensures Statement([a, b] + rest) == a.Text() + (b.Text() + Statement(rest))
  {
    assert ([a, b] + rest)[1..] == [b] + rest && ([b] + rest)[1..] == rest;
  }

  lemma {:induction false} FourSegments(a: Segment, b: Segment, c: Segment, d: Segment)
    ensures Statement([a, b, c, d]) == a.Text() + (b.Text() + (c.Text() + d.Text()))
  {
    assert [a, b] + [c, d] == [a, b, c, d] && [c, d] + [] == [c, d];
    TwoMore(a, b, [c, d]);
    TwoMore(c, d, []);
    assert d.Text() + Statement([]) == d.Text();
  }
}
