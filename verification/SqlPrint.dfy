/** A printer of WITH queries, and that the classifier reads its output as it was meant. */
module SqlPrint {
  import opened Wrappers
  import opened Strings
  import opened SqlScan
  import opened SqlStrip
  import opened SqlIdempotence
  import opened SqlQuote
  import opened SqlClassify

  // ---------- bodies ----------

  /** The inside of parentheses: single bytes, quoted texts, and parenthesised bodies. */
  datatype Body = Nil | Cons(item: Item, rest: Body)
  datatype Item = Ch(c: char) | Lit(text: string) | Group(body: Body)

  function Text(b: Body): string {
    match b
    case Nil => ""
    case Cons(i, r) => ItemText(i) + Text(r)
  }

  function ItemText(i: Item): string {
    match i
    case Ch(c) => [c]
    case Lit(x) => x
    case Group(b) => "(" + Text(b) + ")"
  }

  function Head(t: string): Option<char> {
    if t == "" then None else Some(t[0])
  }

  /** A text that is a quoted or dollar-quoted token by itself. */
  predicate SelfContained(x: string) {
    && x != ""
    && if x[0] == '\'' then SkipQuoted('\'', true, x) == |x|
       else if x[0] == '"' || x[0] == '`' then SkipQuoted(x[0], false, x) == |x|
       else x[0] == '$' && SkipDollar(x) == |x|
  }

  /** The item is a token of its own when `next` is the byte after it: bytes do not open comments
      together, and a quoted text is not continued by another one in the same quotes. */
  predicate Safe(i: Item, next: Option<char>) {
    match i
    case Ch(c) =>
      && c !in {'(', ')', '\'', '"', '`', '$', ';'}
      && (c == '-' ==> next != Some('-'))
      && (c == '/' ==> next != Some('*'))
    case Lit(x) => SelfContained(x) && (x[0] != '$' ==> next != Some(x[0]))
    case Group(b) => WellFormed(b, Some(')'))
  }

  predicate WellFormed(b: Body, next: Option<char>) {
    match b
    case Nil => true
    case Cons(i, r) => Safe(i, if Text(r) == "" then next else Head(Text(r))) && WellFormed(r, next)
  }

  lemma {:induction false} LitIsToken(x: string, t: string)
    requires SelfContained(x) && (x[0] != '$' ==> Head(t) != Some(x[0]))
    ensures NextToken(x + t) == Piece(|x|)
  {
    if x[0] == '$' {
      DollarLocal(x, x + t);
    } else {
      StillQuoted(x[0], x[0] == '\'', x, t);
    }
  }

  lemma {:induction false} StillQuoted(q: char, backslash: bool, x: string, t: string)
    requires q != '\\' && x != "" && SkipQuoted(q, backslash, x) == |x| && Head(t) != Some(q)
    ensures SkipQuoted(q, backslash, x + t) == |x|
  {
    assert x[..|x|] == x;
    QuoteEndLocal(q, backslash, x, 1, t);
  }

  lemma {:induction false} ChIsToken(c: char, t: string)
    requires Safe(Ch(c), Head(t))
    ensures NextToken([c] + t) == Piece(1)
  {
    assert t != "" ==> ([c] + t)[1] == t[0];
  }

  lemma {:induction false} HeadOfRest(b: Body, t: string)
    requires b.Cons?
    ensures Text(b) + t == ItemText(b.item) + (Text(b.rest) + t)
    ensures Head(Text(b.rest) + t) == if Text(b.rest) == "" then Head(t) else Head(Text(b.rest))
  {
  }

  /** The comment stripper leaves a well-formed body alone. */
  lemma {:induction false} BodyUnchanged(b: Body, t: string)
    requires WellFormed(b, Head(t)) && Unchanged(t)
    ensures Unchanged(Text(b) + t)
    decreases b, 0
  {
    match b
    case Nil => assert "" + t == t;
    case Cons(i, r) =>
      HeadOfRest(b, t);
      BodyUnchanged(r, t);
      ItemUnchanged(i, Text(r) + t);
  }

  lemma {:induction false} ItemUnchanged(i: Item, t: string)
    requires Safe(i, Head(t)) && Unchanged(t)
    ensures Unchanged(ItemText(i) + t)
    decreases i, 1
  {
    match i
    case Ch(c) => ChIsToken(c, t); KeptAgain([c], t);
    case Lit(x) => LitIsToken(x, t); KeptAgain(x, t);
    case Group(g) => GroupUnchanged(g, t);
  }

  lemma {:induction false} GroupUnchanged(g: Body, t: string)
    requires WellFormed(g, Some(')')) && Unchanged(t)
    ensures Unchanged("(" + Text(g) + ")" + t)
    decreases g, 1
  {
    assert "(" + Text(g) + ")" + t == ['('] + (Text(g) + ([')'] + t));
    PlainByteKept(')', t);
    BodyUnchanged(g, [')'] + t);
    PlainByteKept('(', Text(g) + ([')'] + t));
  }

  /** The parenthesis matcher passes over a well-formed body. */
  lemma {:induction false} BodyPassed(b: Body, t: string, depth: int)
    requires WellFormed(b, Head(t)) && depth >= 1
    ensures MatchAt(Text(b) + t, depth) == Shift(|Text(b)|, MatchAt(t, depth))
    decreases b, 0
  {
    match b
    case Nil => assert "" + t == t;
    case Cons(i, r) =>
      HeadOfRest(b, t);
      BodyPassed(r, t, depth);
      ItemPassed(i, Text(r) + t, depth);
  }

  lemma {:induction false} ItemPassed(i: Item, t: string, depth: int)
    requires Safe(i, Head(t)) && depth >= 1
    ensures MatchAt(ItemText(i) + t, depth) == Shift(|ItemText(i)|, MatchAt(t, depth))
    decreases i, 1
  {
    match i
    case Ch(c) => ChIsToken(c, t); PieceMatched([c], t, depth);
    case Lit(x) => LitIsToken(x, t); PieceMatched(x, t, depth);
    case Group(g) => GroupPassed(g, t, depth);
  }

  lemma {:induction false} GroupPassed(g: Body, t: string, depth: int)
    requires WellFormed(g, Some(')')) && depth >= 1
    ensures MatchAt("(" + Text(g) + ")" + t, depth) == Shift(|Text(g)| + 2, MatchAt(t, depth))
    decreases g, 1
  {
    BodyPassed(g, ")" + t, depth + 1);
    ParenMatchedAt(Text(g) + (")" + t), t, depth);
    Parenthesised(Text(g), t);
  }

  lemma {:induction false} Parenthesised(x: string, t: string)
    ensures "(" + x + ")" + t == "(" + (x + (")" + t))
  {
  }

  lemma {:induction false} ParenMatchedAt(u: string, t: string, depth: int)
    ensures MatchAt("(" + u, depth) == Shift(1, MatchAt(u, depth + 1))
    ensures MatchAt(")" + t, depth + 1) == if depth == 0 then 0 else Shift(1, MatchAt(t, depth))
  {
    assert ("(" + u)[1..] == u && (")" + t)[1..] == t;
  }

  lemma {:induction false} PieceMatched(p: string, u: string, depth: int)
    requires p != "" && NextToken(p + u) == Piece(|p|) && p[0] != '(' && p[0] != ')'
    ensures MatchAt(p + u, depth) == Shift(|p|, MatchAt(u, depth))
  {
    assert (p + u)[|p|..] == u;
  }

  /** The matcher finds the parenthesis that closes the body, whatever follows. */
  lemma {:induction false} ParenMatched(b: Body, t: string)
    requires WellFormed(b, Some(')'))
    ensures MatchAt("(" + Text(b) + ")" + t, 0) == |Text(b)| + 1
  {
    BodyPassed(b, ")" + t, 1);
    ParenMatchedAt(Text(b) + (")" + t), t, 0);
    Parenthesised(Text(b), t);
  }
}
