/** Comment stripping with the single-statement check, against a token-level reading, and its
    idempotence. */
module SqlStrip {
  import opened Wrappers
  import opened Strings
  import opened SqlScan

  /** What scanning a text leaves: the text kept, or nothing at all because a trailing line comment
      after the terminator had no newline, or an error. */
  datatype Scan = Kept(text: string) | Dropped | Stopped(error: SqlError) {
    function After(p: string): Scan {
      if Kept? then Kept(p + text) else this
    }

    function Outcome(): Result<string, SqlError> {
      match this
      case Kept(t) => Success(t)
      case Dropped => Success("")
      case Stopped(e) => Failure(e)
    }
  }

  predicate IsBlank(c: char) {
    c == ' ' || c == '\t' || c == '\n' || c == '\r'
  }

  /** One step of the scan of what follows the terminator. */
  datatype TailToken = Pass(len: nat) | OpenComment | Stop(error: SqlError)

  function NextTail(s: string): (t: TailToken)
    requires s != ""
    ensures t.Pass? ==> 0 < t.len <= |s|
  {
    if IsBlank(s[0]) || s[0] == ';' then Pass(1)
    else if OpensLineComment(s) then
      var nl := IndexOf(s, "\n");
      if nl < 0 then OpenComment else Pass(nl + 1)
    else if OpensBlockComment(s) then
      var end := IndexOf(s[2..], "*/");
      if end < 0 then Stop(UnterminatedComment) else Pass(2 + end + 2)
    else Stop(MultipleStatements)
  }

  /** The scan of what follows the terminator. */
  function Tail(s: string): Scan {
    if s == "" then Kept("")
    else
      match NextTail(s)
      case Pass(n) => Tail(s[n..])
      case OpenComment => Dropped
      case Stop(e) => Stopped(e)
  }

  /** The scan of a text: comments become one space, all else is kept up to the terminator. */
  function StripFrom(s: string): Scan {
    if s == "" then Kept("")
    else
      match NextToken(s)
      case Comment(n) => StripFrom(s[n..]).After(" ")
      case Piece(n) => StripFrom(s[n..]).After(s[..n])
      case Semi => Tail(s[1..])
      case Bad(e) => Stopped(e)
  }

  function Strip(s: string): Result<string, SqlError> {
    StripFrom(s).Outcome()
  }

  /** stripCommentsAndCheckSingle */
  method StripCommentsAndCheckSingle(sql: string) returns (r: Result<string, SqlError>)
    ensures r == Strip(sql)
  {
    var out, i, sawTerminator := "", 0, false;
    assert sql[0..] == sql;
    AfterNothing(StripFrom(sql));
    while i < |sql|
      invariant i <= |sql|
      invariant StripFrom(sql) == Remaining(sawTerminator, sql[i..]).After(out)
    {
      var n, stop;
      n, sawTerminator, out, stop := Turn(sql[i..], sawTerminator, out);
      if stop.Some? {
        return stop.value;
      }
      assert sql[i + n..] == sql[i..][n..];
      i := i + n;
    }
    assert sql[i..] == "" && out + "" == out;
    return Success(out);
  }

  /** The loop body: how far to advance, the new flag and output, or the value to return. */
  method Turn(rest: string, saw: bool, out: string)
    returns (n: nat, saw': bool, out': string, stop: Option<Result<string, SqlError>>)
    requires rest != ""
    ensures stop.None? ==> 0 < n <= |rest|
    ensures stop.None? ==> Remaining(saw, rest).After(out) == Remaining(saw', rest[n..]).After(out')
    ensures stop.Some? ==> stop.value == Remaining(saw, rest).After(out).Outcome()
  {
    n, saw', out', stop := 1, saw, out, None;
    if saw {
      var t := ScanTail(rest);
      match t {
        case Pass(m) => n := m;
        case OpenComment => stop := Some(Success(""));
        case Stop(e) => stop := Some(Failure(e));
      }
    } else {
      var t := ScanToken(rest);
      match t {
        case Comment(m) => n := m; out' := out + " ";
        case Piece(m) => n := m; out' := out + rest[..n];
        case Semi => saw' := true;
        case Bad(e) => return 1, saw, out, Some(Failure(e));
      }
      StripStep(rest, n, out, saw', out');
    }
  }

  /** The part of the loop body that runs once the terminator has been seen. */
  method ScanTail(rest: string) returns (t: TailToken)
    requires rest != ""
    ensures t == NextTail(rest)
  {
    var c := rest[0];
    if c == ' ' || c == '\t' || c == '\n' || c == '\r' {
      return Pass(1);
    } else if c == ';' {
      return Pass(1);
    } else if c == '-' && |rest| > 1 && rest[1] == '-' {
      var nl := IndexOf(rest, "\n");
      if nl < 0 {
        return OpenComment;
      }
      return Pass(nl + 1);
    } else if c == '/' && |rest| > 1 && rest[1] == '*' {
      var end := IndexOf(rest[2..], "*/");
      if end < 0 {
        return Stop(UnterminatedComment);
      }
      return Pass(2 + end + 2);
    }
    return Stop(MultipleStatements);
  }

  /** The part of the loop body that runs before. */
  method ScanToken(rest: string) returns (t: Token)
    requires rest != ""
    ensures t == NextToken(rest)
  {
    var c := rest[0];
    if c == '-' && |rest| > 1 && rest[1] == '-' {
      var nl := IndexOf(rest, "\n");
      return Comment(if nl < 0 then |rest| else nl + 1);
    } else if c == '/' && |rest| > 1 && rest[1] == '*' {
      var end := IndexOf(rest[2..], "*/");
      if end < 0 {
        return Bad(UnterminatedComment);
      }
      return Comment(2 + end + 2);
    } else if c == '\'' {
      var adv := SkipSingleQuoted(rest);
      return Quoted(adv, UnterminatedString);
    } else if c == '"' {
      var adv := SkipIdentQuoted('"', rest);
      return Quoted(adv, UnterminatedIdent);
    } else if c == '`' {
      var adv := SkipIdentQuoted('`', rest);
      return Quoted(adv, UnterminatedBacktick);
    } else if c == '$' {
      var adv := SkipDollarQuoted(rest);
      return Piece(if adv > 0 then adv else 1);
    } else if c == ';' {
      return Semi;
    }
    return Piece(1);
  }

  lemma {:induction false} AfterNothing(r: Scan)
    ensures r.After("") == r
  {
    if r.Kept? {
      assert "" + r.text == r.text;
    }
  }

  lemma {:induction false} AfterTwice(r: Scan, a: string, b: string)
    ensures r.After(b).After(a) == r.After(a + b)
  {
    if r.Kept? {
      assert a + (b + r.text) == (a + b) + r.text;
    }
  }

  /** The scan that remains to be done on `s`. */
  function Remaining(sawTerminator: bool, s: string): Scan {
    if sawTerminator then Tail(s) else StripFrom(s)
  }

  /** One turn of the loop before the terminator: the token passed moves from the text to the output. */
  lemma {:induction false} StripStep(s: string, n: nat, kept: string, saw: bool, out: string)
    requires s != "" && n <= |s|
    requires match NextToken(s)
      case Comment(m) => n == m && !saw && out == kept + " "
      case Piece(m) => n == m && !saw && out == kept + s[..n]
      case Semi => n == 1 && saw && out == kept
      case Bad(_) => false
    ensures StripFrom(s).After(kept) == Remaining(saw, s[n..]).After(out)
  {
    match NextToken(s)
    case Comment(_) => AfterTwice(StripFrom(s[n..]), kept, " ");
    case Piece(_) => AfterTwice(StripFrom(s[n..]), kept, s[..n]);
    case _ =>
  }
}
