/** The read-or-write verdict on one statement. ASCII rules for case and whitespace. */
module SqlClassify {
  import opened Wrappers
  import opened Strings
  import opened SqlScan
  import opened SqlStrip
  import opened SqlIdempotence

  datatype Kind = Read | Write

  datatype ClassifyError = NotOneStatement(cause: SqlError) | EmptyStatement

  // ---------- words ----------

  predicate IsWordByte(c: char) {
    c as int >= 0x80 || IsTagByte(c)
  }

  /** The length of the run of word bytes, and of dots if `dots`, at the front of `s`. */
  function Run(dots: bool, s: string): (n: nat)
    ensures n <= |s|
    ensures forall i :: 0 <= i < n ==> IsWordByte(s[i]) || (dots && s[i] == '.')
    ensures n < |s| ==> !IsWordByte(s[n]) && !(dots && s[n] == '.')
  {
    if s != "" && (IsWordByte(s[0]) || (dots && s[0] == '.')) then 1 + Run(dots, s[1..]) else 0
  }

  method FirstKeyword(sql: string) returns (kw: string, rest: string)
    ensures kw == FirstWord(sql) && rest == sql[|kw|..]
  {
    var end := 0;
    assert sql[0..] == sql;
    while end < |sql|
      invariant end <= |sql|
      invariant Run(false, sql) == end + Run(false, sql[end..])
    {
      if IsWordByte(sql[end]) {
        assert sql[end..][1..] == sql[end + 1..];
        end := end + 1;
        continue;
      }
      break;
    }
    return sql[..end], sql[end..];
  }

  // ---------- identifiers and parentheses ----------

  /** The length of the identifier at the front of `s`, or 0 if there is none. */
  function IdentLen(s: string): (n: nat)
    ensures n <= |s|
  {
    if s == "" then 0
    else if s[0] == '"' || s[0] == '`' then SkipQuoted(s[0], false, s)
    else if s[0] == '[' then
      var end := IndexOf(s[1..], "]");
      if end < 0 then 0 else 1 + end + 1
    else Run(true, s)
  }

  method ConsumeIdent(s: string) returns (n: Option<nat>)
    ensures n == if IdentLen(s) == 0 then None else Some(IdentLen(s))
  {
    if s == "" {
      return None;
    }
    if s[0] == '"' || s[0] == '`' {
      var adv := SkipIdentQuoted(s[0], s);
      return if adv == 0 then None else Some(adv);
    }
    if s[0] == '[' {
      var end := IndexOf(s[1..], "]");
      return if end < 0 then None else Some(1 + end + 1);
    }
    var i := 0;
    assert s[0..] == s;
    while i < |s|
      invariant i <= |s|
      invariant Run(true, s) == i + Run(true, s[i..])
    {
      if s[i] == '.' || IsWordByte(s[i]) {
        assert s[i..][1..] == s[i + 1..];
        i := i + 1;
        continue;
      }
      break;
    }
    n := if i == 0 then None else Some(i);
  }

  function Shift(n: nat, k: int): int {
    if k < 0 then -1 else n + k
  }

  /** How far into `s` the parenthesis closes that `depth` counts from, or -1. Parentheses inside
      quoted texts and comments do not count. */
  function MatchAt(s: string, depth: int): (k: int)
    ensures -1 <= k < |s|
  {
    if s == "" then -1
    else if s[0] == '(' then Shift(1, MatchAt(s[1..], depth + 1))
    else if s[0] == ')' then
      if depth == 1 then 0 else Shift(1, MatchAt(s[1..], depth - 1))
    else
      match NextToken(s)
      case Comment(n) => Shift(n, MatchAt(s[n..], depth))
      case Piece(n) => Shift(n, MatchAt(s[n..], depth))
      case Semi => Shift(1, MatchAt(s[1..], depth))
      case Bad(_) => -1
  }

  /** The scan of `s` has come to `i` at this depth and will end at `found`. */
  ghost predicate Scanning(s: string, i: nat, depth: int, found: int) {
    i <= |s| && found == Shift(i, MatchAt(s[i..], depth))
  }

  lemma {:induction false} ScanStart(s: string) returns (found: int)
    ensures found == MatchAt(s, 0) && Scanning(s, 0, 0, found)
  {
    found := MatchAt(s, 0);
    assert s[0..] == s;
  }

  lemma {:induction false} ScanEnd(s: string, i: nat, depth: int, found: int)
    requires Scanning(s, i, depth, found) && i == |s|
    ensures found == -1
  {
    assert s[i..] == "";
  }

  method MatchParen(s: string) returns (k: int)
    ensures k == MatchAt(s, 0)
  {
    var depth, i := 0, 0;
    ghost var found := ScanStart(s);
    while i < |s|
      invariant Scanning(s, i, depth, found)
    {
      var step;
      step, depth := ParenStep(s, i, depth, found);
      if step.Closes? {
        return i;
      } else if step.Broken? {
        return -1;
      }
      i := i + step.n;
    }
    ScanEnd(s, i, depth, found);
    return -1;
  }

  datatype Paren = Closes | Broken | Passes(n: nat)

  /** matchParen's switch at position `i`. */
  method ParenStep(s: string, i: nat, depth: int, ghost found: int) returns (r: Paren, depth': int)
    requires i < |s| && Scanning(s, i, depth, found)
    ensures r.Closes? ==> found == i
    ensures r.Broken? ==> found == -1
    ensures r.Passes? ==> 0 < r.n && Scanning(s, i + r.n, depth', found)
  {
    var rest := s[i..];
    if rest[0] == '(' {
      assert s[i + 1..] == rest[1..];
      return Passes(1), depth + 1;
    } else if rest[0] == ')' {
      depth' := depth - 1;
      assert s[i + 1..] == rest[1..];
      return if depth' == 0 then Closes else Passes(1), depth';
    }
    var n := PassOver(rest);
    assert s[i + n..] == rest[n..];
    return if n == 0 then Broken else Passes(n), depth;
  }

  /** The cases of matchParen's switch that are not parentheses: how far to advance, or 0 to give up. */
  method PassOver(rest: string) returns (n: nat)
    requires rest != "" && rest[0] != '(' && rest[0] != ')'
    ensures n <= |rest|
    ensures forall depth :: MatchAt(rest, depth) == if n == 0 then -1 else Shift(n, MatchAt(rest[n..], depth))
  {
    var c := rest[0];
    if c == '\'' {
      n := SkipSingleQuoted(rest);
    } else if c == '"' {
      n := SkipIdentQuoted('"', rest);
    } else if c == '`' {
      n := SkipIdentQuoted('`', rest);
    } else if c == '$' {
      n := SkipDollarQuoted(rest);
      if n == 0 {
        n := 1;
      }
    } else if c == '-' && |rest| > 1 && rest[1] == '-' {
      var nl := IndexOf(rest, "\n");
      if nl < 0 {
        return 0;
      }
      n := nl + 1;
    } else if c == '/' && |rest| > 1 && rest[1] == '*' {
      var end := IndexOf(rest[2..], "*/");
      if end < 0 {
        return 0;
      }
      n := 2 + end + 2;
    } else {
      n := 1;
    }
  }

  // ---------- WITH ----------

  /** What one turn of the loop over the CTE list finds: something it does not recognise, a comma and
      the rest of the list, or the end of the list and the statement's body. */
  datatype Cte = GiveUp | More(rest: string) | Body(rest: string)

  /** An optional parenthesised column list: the trimmed rest after it. */
  function AfterColumns(s: string): (r: Option<string>)
    ensures r.Some? ==> |r.value| <= |s|
  {
    if "(" <= s then
      var end := MatchAt(s, 0);
      if end < 0 then None else Some(TrimSpace(s[end + 1..]))
    else Some(s)
  }

  function AfterMaterialized(s: string): (r: string)
    ensures |r| <= |s|
  {
    if "not materialized" <= ToLower(s) then TrimSpace(s[|"not materialized"|..])
    else if "materialized" <= ToLower(s) then TrimSpace(s[|"materialized"|..])
    else s
  }

  /** `name [(columns)] AS [[NOT] MATERIALIZED] (body) [,]` */
  function NextCte(s: string): (r: Cte)
    ensures r.More? || r.Body? ==> |r.rest| < |s|
  {
    var n := IdentLen(s);
    if n == 0 then GiveUp
    else
      var columns := AfterColumns(TrimSpace(s[n..]));
      if columns.None? || !("as" <= ToLower(columns.value)) then GiveUp
      else AfterBody(AfterMaterialized(TrimSpace(columns.value[2..])))
  }

  /** `(body) [,]` */
  function AfterBody(s: string): (r: Cte)
    ensures r.More? || r.Body? ==> |r.rest| < |s|
  {
    if !("(" <= s) then GiveUp
    else
      var end := MatchAt(s, 0);
      if end < 0 then GiveUp
      else
        var rest := TrimSpace(s[end + 1..]);
        if "," <= rest then More(TrimSpace(rest[1..])) else Body(rest)
  }

  function WithList(s: string): Kind
    decreases |s|
  {
    match NextCte(s)
    case GiveUp => Write
    case More(rest) => WithList(rest)
    case Body(rest) => BodyKind(FirstWord(rest))
  }

  function FirstWord(s: string): string {
    s[..Run(false, s)]
  }

  /** The verdict that the keyword after the CTE list decides. */
  function BodyKind(kw: string): Kind {
    if ToLower(kw) == "select" || ToLower(kw) == "values" then Read else Write
  }

  function AfterRecursive(s: string): string {
    if "recursive" <= ToLower(s) && |s| > |"recursive"| && (IsSpace(s[|"recursive"|]) || s[|"recursive"|] == '(')
    then TrimSpace(s[|"recursive"|..])
    else s
  }

  function With(s: string): Kind {
    WithList(AfterRecursive(TrimSpace(s)))
  }

  method ClassifyWith(tail: string) returns (k: Kind)
    ensures k == With(tail)
  {
    var rest := TrimSpace(tail);
    var lower := ToLower(rest);
    if "recursive" <= lower {
      if |rest| > |"recursive"| && (IsSpace(rest[|"recursive"|]) || rest[|"recursive"|] == '(') {
        rest := rest[|"recursive"|..];
        rest := TrimSpace(rest);
      }
    }
    while true
      invariant With(tail) == WithList(rest)
      decreases |rest|
    {
      var cte := PassCte(rest);
      if cte.GiveUp? {
        return Write;
      }
      ghost var list := rest;
      rest := cte.rest;
      if cte.More? {
        continue;
      }
      assert WithList(list) == BodyKind(FirstWord(rest));
      break;
    }
    var body, _ := FirstKeyword(rest);
    body := ToLower(body);
    if body == "select" || body == "values" {
      return Read;
    }
    return Write;
  }

  method PassColumns(s: string) returns (r: Option<string>)
    ensures r == AfterColumns(s)
  {
    if "(" <= s {
      var end := MatchParen(s);
      if end < 0 {
        return None;
      }
      return Some(TrimSpace(s[end + 1..]));
    }
    return Some(s);
  }

  method PassMaterialized(s: string) returns (r: string)
    ensures r == AfterMaterialized(s)
  {
    var lower := ToLower(s);
    if "not materialized" <= lower {
      return TrimSpace(s[|"not materialized"|..]);
    } else if "materialized" <= lower {
      return TrimSpace(s[|"materialized"|..]);
    }
    return s;
  }

  /** The loop body of classifyWith. */
  method PassCte(list: string) returns (r: Cte)
    ensures r == NextCte(list)
  {
    var rest := list;
    var consumed := ConsumeIdent(rest);
    if consumed.None? {
      return GiveUp;
    }
    rest := TrimSpace(rest[consumed.value..]);
    var columns := PassColumns(rest);
    if columns.None? {
      return GiveUp;
    }
    rest := columns.value;
    if !("as" <= ToLower(rest)) {
      return GiveUp;
    }
    rest := TrimSpace(rest[2..]);
    rest := PassMaterialized(rest);
    r := PassBody(rest);
  }

  method PassBody(s: string) returns (r: Cte)
    ensures r == AfterBody(s)
  {
    if !("(" <= s) {
      return GiveUp;
    }
    var end := MatchParen(s);
    if end < 0 {
      return GiveUp;
    }
    var rest := TrimSpace(s[end + 1..]);
    if "," <= rest {
      rest := TrimSpace(rest[1..]);
      return More(rest);
    }
    return Body(rest);
  }

  // ---------- statements ----------

  const READ_KEYWORDS: set<string> := {"select", "show", "explain", "describe", "desc", "values", "table"}

  /** The verdict on a text that is already stripped. */
  function Verdict(stripped: string): Result<Kind, ClassifyError> {
    var s := TrimSpace(stripped);
    if s == "" then Failure(EmptyStatement)
    else
      var first := ToLower(FirstWord(s));
      if first == "with" then Success(With(s[|first|..]))
      else if first in READ_KEYWORDS then Success(Read)
      else Success(Write)
  }

  function Classify(sql: string): Result<Kind, ClassifyError> {
    match Strip(sql)
    case Failure(e) => Failure(NotOneStatement(e))
    case Success(s) => Verdict(s)
  }

  method ClassifyStatement(sql: string) returns (r: Result<Kind, ClassifyError>)
    ensures r == Classify(sql)
  {
    var strippedOrErr := StripCommentsAndCheckSingle(sql);
    if strippedOrErr.Failure? {
      return Failure(NotOneStatement(strippedOrErr.error));
    }
    var stripped := TrimSpace(strippedOrErr.value);
    if stripped == "" {
      return Failure(EmptyStatement);
    }
    var first, rest := FirstKeyword(stripped);
    first := ToLower(first);
    if first == "with" {
      var k := ClassifyWith(rest);
      return Success(k);
    }
    if first in READ_KEYWORDS {
      return Success(Read);
    }
    return Success(Write);
  }

  /** A statement and its stripped form get the same verdict. */
  lemma {:induction false} SameVerdictStripped(sql: string)
    requires Strip(sql).Success?
    ensures Classify(Strip(sql).value) == Classify(sql)
  {
    StripIdempotent(sql);
  }
}
