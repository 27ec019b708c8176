/** The tokens of the SQL classifier. A text is a sequence of bytes, written as chars. */
module SqlScan {
  import opened Strings

  // ---------- byte classes ----------

  predicate IsLetterOrDigit(c: char) {
    'a' <= c <= 'z' || 'A' <= c <= 'Z' || '0' <= c <= '9'
  }

  predicate IsTagByte(c: char) {
    c == '_' || IsLetterOrDigit(c)
  }

  // ---------- quoted texts ----------

  /** The position just past the quote that closes a text opened before position `i`, or 0. A
      doubled quote does not close it; neither, if `backslash`, does a byte after a backslash. */
  function QuoteEnd(q: char, backslash: bool, s: string, i: nat): (n: nat)
    requires i <= |s|
    ensures n == 0 || i < n <= |s|
    decreases |s| - i
  {
    if i == |s| then 0
    else if backslash && s[i] == '\\' && i + 1 < |s| then QuoteEnd(q, backslash, s, i + 2)
    else if s[i] == q then
      if i + 1 < |s| && s[i + 1] == q then QuoteEnd(q, backslash, s, i + 2) else i + 1
    else QuoteEnd(q, backslash, s, i + 1)
  }

  /** The length of the quoted text at the front of `s`, or 0. */
  function SkipQuoted(q: char, backslash: bool, s: string): (n: nat)
    ensures n == 0 || 2 <= n <= |s|
  {
    if s == "" || s[0] != q then 0 else QuoteEnd(q, backslash, s, 1)
  }

  /** The quoted text at the front of `s` stays one if anything but its quote follows it. */
  lemma {:induction false} QuoteEndLocal(q: char, backslash: bool, s: string, i: nat, t: string)
    requires q != '\\' && i <= |s| && QuoteEnd(q, backslash, s, i) > 0
    requires t == "" || t[0] != q
    ensures QuoteEnd(q, backslash, s[..QuoteEnd(q, backslash, s, i)] + t, i) == QuoteEnd(q, backslash, s, i)
    decreases |s| - i
  {
    var n := QuoteEnd(q, backslash, s, i);
    var u := s[..n] + t;
    assert i < n && u[i] == s[i];
    if backslash && s[i] == '\\' && i + 1 < |s| {
      QuoteEndLocal(q, backslash, s, i + 2, t);
    } else if s[i] == q {
      if i + 1 < |s| && s[i + 1] == q {
        assert u[i + 1] == s[i + 1];
        QuoteEndLocal(q, backslash, s, i + 2, t);
      } else {
        assert n == i + 1 && (t != "" ==> u[i + 1] == t[0]);
      }
    } else {
      QuoteEndLocal(q, backslash, s, i + 1, t);
    }
  }

  /** A quoted text that was found closes with its quote, and the same quote does not follow. */
  lemma {:induction false} QuoteEndShape(q: char, backslash: bool, s: string, i: nat)
    requires i <= |s| && QuoteEnd(q, backslash, s, i) > 0
    ensures var n := QuoteEnd(q, backslash, s, i); s[n - 1] == q && (n < |s| ==> s[n] != q)
    decreases |s| - i
  {
    if backslash && s[i] == '\\' && i + 1 < |s| {
      QuoteEndShape(q, backslash, s, i + 2);
    } else if s[i] == q {
      if i + 1 < |s| && s[i + 1] == q {
        QuoteEndShape(q, backslash, s, i + 2);
      }
    } else {
      QuoteEndShape(q, backslash, s, i + 1);
    }
  }

  /** skipSingleQuoted */
  method SkipSingleQuoted(s: string) returns (n: nat)
    ensures n == SkipQuoted('\'', true, s)
  {
    if |s| < 1 || s[0] != '\'' {
      return 0;
    }
    var i := 1;
    while i < |s|
      invariant 1 <= i <= |s|
      invariant SkipQuoted('\'', true, s) == QuoteEnd('\'', true, s, i)
    {
      if s[i] == '\\' && i + 1 < |s| {
        i := i + 2;
        continue;
      }
      if s[i] == '\'' {
        if i + 1 < |s| && s[i + 1] == '\'' {
          i := i + 2;
          continue;
        }
        return i + 1;
      }
      i := i + 1;
    }
    n := 0;
  }

  /** skipDoubleQuoted, skipBacktickQuoted and consumeQuoted: one loop, three quotes. */
  method SkipIdentQuoted(q: char, s: string) returns (n: nat)
    ensures n == SkipQuoted(q, false, s)
  {
    if |s| < 1 || s[0] != q {
      return 0;
    }
    var i := 1;
    while i < |s|
      invariant 1 <= i <= |s|
      invariant SkipQuoted(q, false, s) == QuoteEnd(q, false, s, i)
    {
      if s[i] == q {
        if i + 1 < |s| && s[i + 1] == q {
          i := i + 2;
          continue;
        }
        return i + 1;
      }
      i := i + 1;
    }
    n := 0;
  }

  // ---------- dollar quotes ----------

  /** The position of the `$` that ends the tag being read at `i`, or 0. */
  function TagEnd(s: string, i: nat): (k: nat)
    requires 0 < i <= |s|
    ensures k == 0 || (i <= k < |s| && s[k] == '$' && forall j :: i <= j < k ==> IsTagByte(s[j]))
    decreases |s| - i
  {
    if i == |s| then 0
    else if s[i] == '$' then i
    else if IsTagByte(s[i]) then TagEnd(s, i + 1)
    else 0
  }

  /** The length of the `$tag$ ... $tag$` at the front of `s`, or 0. */
  function SkipDollar(s: string): (n: nat)
    ensures n == 0 || 2 <= n <= |s|
  {
    if |s| < 2 || s[0] != '$' then 0
    else
      var k := TagEnd(s, 1);
      if k == 0 then 0 else DollarEnd(s, k)
  }

  /** The end of the second occurrence of the tag that ends at `k`, or 0. */
  function DollarEnd(s: string, k: nat): (n: nat)
    requires k < |s|
    ensures n == 0 || 2 * (k + 1) <= n <= |s|
  {
    var idx := IndexOf(s[k + 1..], s[..k + 1]);
    if idx < 0 then 0 else (k + 1) + idx + (k + 1)
  }

  method SkipDollarQuoted(s: string) returns (n: nat)
    ensures n == SkipDollar(s)
  {
    if |s| < 2 || s[0] != '$' {
      return 0;
    }
    var tagEnd := 1;
    while tagEnd < |s| && s[tagEnd] != '$'
      invariant 1 <= tagEnd <= |s|
      invariant TagEnd(s, 1) == TagEnd(s, tagEnd)
    {
      if IsTagByte(s[tagEnd]) {
        tagEnd := tagEnd + 1;
        continue;
      }
      return 0;
    }
    if tagEnd >= |s| {
      return 0;
    }
    var tag := s[..tagEnd + 1];
    var idx := IndexOf(s[|tag|..], tag);
    if idx < 0 {
      return 0;
    }
    n := |tag| + idx + |tag|;
  }

  lemma {:induction false} TagEndExact(s: string, i: nat, k: nat)
    requires 0 < i <= k < |s| && s[k] == '$'
    requires forall j :: i <= j < k ==> IsTagByte(s[j])
    ensures TagEnd(s, i) == k
    decreases k - i
  {
    if i < k {
      TagEndExact(s, i + 1, k);
    }
  }

  lemma {:induction false} DollarEndLocal(s: string, u: string, k: nat)
    requires k < |s| && 0 < DollarEnd(s, k) <= |u|
    requires forall j :: 0 <= j < DollarEnd(s, k) ==> s[j] == u[j]
    ensures DollarEnd(u, k) == DollarEnd(s, k)
  {
    assert s[..k + 1] == u[..k + 1];
    IndexOfLocal(s[k + 1..], s[..k + 1], u[k + 1..]);
  }

  /** A dollar-quoted text stays one, whatever follows it. */
  lemma {:induction false} DollarLocal(s: string, u: string)
    requires 0 < SkipDollar(s) <= |u|
    requires forall j :: 0 <= j < SkipDollar(s) ==> s[j] == u[j]
    ensures SkipDollar(u) == SkipDollar(s)
  {
    var k := TagEnd(s, 1);
    TagEndExact(u, 1, k);
    DollarEndLocal(s, u, k);
  }

  // ---------- tokens ----------

  datatype SqlError =
    | UnterminatedComment | UnterminatedString | UnterminatedIdent | UnterminatedBacktick | MultipleStatements

  /** One step of the scanner: a comment, a text kept as it is, a terminator, or an error. */
  datatype Token = Comment(len: nat) | Piece(len: nat) | Semi | Bad(error: SqlError)

  predicate OpensLineComment(s: string) {
    |s| >= 2 && s[0] == '-' && s[1] == '-'
  }

  predicate OpensBlockComment(s: string) {
    |s| >= 2 && s[0] == '/' && s[1] == '*'
  }

  /** The token at the front of `s`. */
  function NextToken(s: string): (t: Token)
    requires s != ""
    ensures t.Comment? || t.Piece? ==> 0 < t.len <= |s|
  {
    if OpensLineComment(s) then
      var nl := IndexOf(s, "\n");
      Comment(if nl < 0 then |s| else nl + 1)
    else if OpensBlockComment(s) then
      var end := IndexOf(s[2..], "*/");
      if end < 0 then Bad(UnterminatedComment) else Comment(2 + end + 2)
    else if s[0] == '\'' then Quoted(SkipQuoted('\'', true, s), UnterminatedString)
    else if s[0] == '"' then Quoted(SkipQuoted('"', false, s), UnterminatedIdent)
    else if s[0] == '`' then Quoted(SkipQuoted('`', false, s), UnterminatedBacktick)
    else if s[0] == '$' && SkipDollar(s) > 0 then Piece(SkipDollar(s))
    else if s[0] == ';' then Semi
    else Piece(1)
  }

  function Quoted(n: nat, e: SqlError): Token {
    if n == 0 then Bad(e) else Piece(n)
  }
}
