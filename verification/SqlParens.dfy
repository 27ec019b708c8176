/** The parenthesis matcher in terms of tokens, for every text. */
module SqlParens {
  import opened Wrappers
  import opened SqlScan
  import opened SqlTokens
  import opened SqlClassify

  /** The token at the front of a text. */
  function First(s: string): (t: Lexeme)
    requires s != "" && !NextToken(s).Bad?
  {
    match NextToken(s)
    case Comment(n) => CommentText(s[..n])
    case Piece(n) => PieceText(s[..n])
    case _ => SemiMark
  }

  function Width(t: Lexeme): nat {
    |t.Source()|
  }

  lemma {:induction false} FirstFits(s: string)
    requires s != "" && !NextToken(s).Bad?
    ensures 0 < Width(First(s)) <= |s|
    ensures First(s).Source() == s[..Width(First(s))]
  {
    if NextToken(s).Semi? {
      assert s[..1] == ";";
    }
  }

  /** The tokens of a text up to the first that is not closed. */
  function Leading(s: string): seq<Lexeme> {
    if s == "" || NextToken(s).Bad? then []
    else
      FirstFits(s);
      [First(s)] + Leading(s[Width(First(s))..])
  }

  const OPEN := PieceText("(")
  const CLOSE := PieceText(")")

  function Level(t: Lexeme): int {
    if t == OPEN then 1 else if t == CLOSE then -1 else 0
  }

  /** By how much tokens raise the nesting depth. */
  function Levels(toks: seq<Lexeme>): int {
    if toks == [] then 0 else Level(toks[0]) + Levels(toks[1..])
  }

  /** Token `i` is a closing parenthesis that brings the depth down to 0. */
  ghost predicate ClosesAt(toks: seq<Lexeme>, depth: int, i: nat) {
    i < |toks| && toks[i] == CLOSE && depth + Levels(toks[..i + 1]) == 0
  }

  /** Token `j` is the first such one. */
  ghost predicate Matches(toks: seq<Lexeme>, depth: int, j: nat) {
    ClosesAt(toks, depth, j) && forall i: nat :: i < j ==> !ClosesAt(toks, depth, i)
  }

  lemma {:induction false} LevelsTail(t: Lexeme, rest: seq<Lexeme>, i: nat)
    requires i <= |rest|
    ensures Levels(([t] + rest)[..i + 1]) == Level(t) + Levels(rest[..i])
  {
    assert ([t] + rest)[..i + 1][1..] == rest[..i];
  }

  /** Closing at a token, and behind it. */
  lemma {:induction false} ClosesFirst(t: Lexeme, rest: seq<Lexeme>, depth: int)
    ensures ClosesAt([t] + rest, depth, 0) <==> t == CLOSE && depth == 1
  {
    LevelsTail(t, rest, 0);
  }

  lemma {:induction false} ClosesBehind(t: Lexeme, rest: seq<Lexeme>, depth: int, i: nat)
    ensures ClosesAt([t] + rest, depth, i + 1) <==> ClosesAt(rest, depth + Level(t), i)
  {
    if i < |rest| {
      LevelsTail(t, rest, i + 1);
    }
  }

  /** Matching behind a token. */
  lemma {:induction false} MatchesTail(t: Lexeme, rest: seq<Lexeme>, depth: int, j: nat)
    requires !(t == CLOSE && depth == 1)
    ensures Matches([t] + rest, depth, j + 1) <==> Matches(rest, depth + Level(t), j)
    ensures !Matches([t] + rest, depth, 0)
  {
    var (toks, inner) := ([t] + rest, depth + Level(t));
    ClosesFirst(t, rest, depth);
    ClosesBehind(t, rest, depth, j);
    if Matches(toks, depth, j + 1) {
      forall i: nat | i < j
        ensures !ClosesAt(rest, inner, i)
      {
        ClosesBehind(t, rest, depth, i);
      }
    }
    if Matches(rest, inner, j) {
      forall i: nat | i <= j
        ensures !ClosesAt(toks, depth, i)
      {
        if i > 0 {
          ClosesBehind(t, rest, depth, i - 1);
        }
      }
    }
  }

  lemma {:induction false} ParenToken(s: string)
    requires s != "" && !NextToken(s).Bad?
    ensures First(s) == OPEN <==> s[0] == '('
    ensures First(s) == CLOSE <==> s[0] == ')'
  {
    FirstFits(s);
    if s[0] == '(' || s[0] == ')' {
      assert NextToken(s) == Piece(1) && s[..1] == [s[0]];
    } else {
      assert First(s).Source()[0] == s[0];
    }
  }

  /** One token off the front. */
  lemma {:induction false} MatchStep(s: string, depth: int)
    requires s != "" && !NextToken(s).Bad?
    ensures First(s) == CLOSE && depth == 1 ==> MatchAt(s, depth) == 0
    ensures !(First(s) == CLOSE && depth == 1) ==>
      0 < Width(First(s)) <= |s|
      && MatchAt(s, depth) == Shift(Width(First(s)), MatchAt(s[Width(First(s))..], depth + Level(First(s))))
  {
    FirstFits(s);
    ParenToken(s);
  }

  lemma {:induction false} CloseFirst(rest: seq<Lexeme>, j: nat)
    requires Matches([CLOSE] + rest, 1, j)
    ensures j == 0
  {
    ClosesFirst(CLOSE, rest, 1);
  }

  lemma {:induction false} FoundBehind(t: Lexeme, rest: seq<Lexeme>, depth: int, j: nat)
    requires !(t == CLOSE && depth == 1) && Matches([t] + rest, depth, j)
    ensures j > 0 && Matches(rest, depth + Level(t), j - 1)
  {
    MatchesTail(t, rest, depth, 0);
    MatchesTail(t, rest, depth, if j > 0 then j - 1 else 0);
  }

  /** How many bytes there are before token `j`. */
  function Position(toks: seq<Lexeme>, j: nat): nat
    requires j <= |toks|
  {
    if j == 0 then 0 else Width(toks[0]) + Position(toks[1..], j - 1)
  }

  /** The matcher, run on tokens. */
  function Close(toks: seq<Lexeme>, depth: int): int {
    if toks == [] then -1
    else if toks[0] == CLOSE && depth == 1 then 0
    else Shift(Width(toks[0]), Close(toks[1..], depth + Level(toks[0])))
  }

  lemma {:induction false} CloseStep(t: Lexeme, rest: seq<Lexeme>, depth: int)
    ensures Close([t] + rest, depth) ==
      if t == CLOSE && depth == 1 then 0 else Shift(Width(t), Close(rest, depth + Level(t)))
  {
    assert ([t] + rest)[1..] == rest;
  }

  lemma {:induction false} MatchIsClose(s: string, depth: int)
    ensures MatchAt(s, depth) == Close(Leading(s), depth)
    decreases |s|
  {
    if s == "" || NextToken(s).Bad? {
      NoneLeading(s, depth);
    } else {
      var t := First(s);
      MatchStep(s, depth);
      LeadingStep(s, depth);
      if !(t == CLOSE && depth == 1) {
        MatchIsClose(s[Width(t)..], depth + Level(t));
      }
    }
  }

  lemma {:induction false} NoneLeading(s: string, depth: int)
    requires s == "" || NextToken(s).Bad?
    ensures MatchAt(s, depth) == Close(Leading(s), depth) == -1
  {
  }

  lemma {:induction false} LeadingStep(s: string, depth: int)
    requires s != "" && !NextToken(s).Bad?
    ensures Width(First(s)) <= |s|
    ensures Close(Leading(s), depth) ==
      if First(s) == CLOSE && depth == 1 then 0
      else Shift(Width(First(s)), Close(Leading(s[Width(First(s))..]), depth + Level(First(s))))
  {
    FirstFits(s);
    CloseStep(First(s), Leading(s[Width(First(s))..]), depth);
  }

  lemma {:induction false} CloseFound(toks: seq<Lexeme>, depth: int, j: nat)
    requires Matches(toks, depth, j)
    ensures Close(toks, depth) == Position(toks, j)
    decreases |toks|
  {
    var (t, rest) := (toks[0], toks[1..]);
    assert toks == [t] + rest;
    if t == CLOSE && depth == 1 {
      CloseFirst(rest, j);
    } else {
      FoundBehind(t, rest, depth, j);
      CloseFound(rest, depth + Level(t), j - 1);
      CloseStep(t, rest, depth);
    }
  }

  lemma {:induction false} CloseOnlyFound(toks: seq<Lexeme>, depth: int) returns (j: nat)
    requires Close(toks, depth) >= 0
    ensures Matches(toks, depth, j)
    decreases |toks|
  {
    var (t, rest) := (toks[0], toks[1..]);
    assert toks == [t] + rest;
    if t == CLOSE && depth == 1 {
      ClosesFirst(CLOSE, rest, 1);
      j := 0;
    } else {
      var k := CloseOnlyFound(rest, depth + Level(t));
      MatchesTail(t, rest, depth, k);
      j := k + 1;
    }
  }

  /** On every text: the matcher returns the position of the matching parenthesis, if there is one
      before the first quote or comment that is not closed; and otherwise -1. */
  lemma {:induction false} MatchByTokens(s: string)
    ensures MatchAt(s, 0) >= 0 <==> exists j: nat :: Matches(Leading(s), 0, j)
    ensures forall j: nat :: Matches(Leading(s), 0, j) ==> MatchAt(s, 0) == Position(Leading(s), j)
  {
    MatchIsClose(s, 0);
    if MatchAt(s, 0) >= 0 {
      var j := CloseOnlyFound(Leading(s), 0);
    }
    forall j: nat | Matches(Leading(s), 0, j)
      ensures MatchAt(s, 0) == Position(Leading(s), j)
    {
      CloseFound(Leading(s), 0, j);
    }
  }
}
