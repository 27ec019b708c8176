/** The single-statement check in terms of tokens: which texts pass, and what they are turned into. */
module SqlTokens {
  import opened Wrappers
  import opened Strings
  import opened SqlScan
  import opened SqlStrip

  /** A token with its text. */
  datatype Lexeme = CommentText(text: string) | PieceText(text: string) | SemiMark {
    function Source(): string {
      if SemiMark? then ";" else text
    }

    predicate Blank() {
      SemiMark? || CommentText? || (|text| == 1 && IsBlank(text[0]))
    }
  }

  /** All the tokens of a text, unless a quote or a block comment is not closed. */
  function Lex(s: string): Option<seq<Lexeme>> {
    if s == "" then Some([])
    else
      match NextToken(s)
      case Comment(n) => Cons(CommentText(s[..n]), Lex(s[n..]))
      case Piece(n) => Cons(PieceText(s[..n]), Lex(s[n..]))
      case Semi => Cons(SemiMark, Lex(s[1..]))
      case Bad(_) => None
  }

  function Cons<T>(x: T, xs: Option<seq<T>>): Option<seq<T>> {
    if xs.None? then None else Some([x] + xs.value)
  }

  function Source(toks: seq<Lexeme>): string {
    if toks == [] then "" else toks[0].Source() + Source(toks[1..])
  }

  /** Tokens lose nothing: their texts make up the text. */
  lemma {:induction false} LexLossless(s: string)
    requires Lex(s).Some?
    ensures Source(Lex(s).value) == s
  {
    if s != "" {
      match NextToken(s)
      case Comment(n) => LexLossless(s[n..]); SourceStep(s, n, CommentText(s[..n]));
      case Piece(n) => LexLossless(s[n..]); SourceStep(s, n, PieceText(s[..n]));
      case Semi => LexLossless(s[1..]); SourceStep(s, 1, SemiMark);
    }
  }

  lemma {:induction false} SourceStep(s: string, n: nat, t: Lexeme)
    requires n <= |s| && Lex(s[n..]).Some? && Lex(s) == Cons(t, Lex(s[n..])) && t.Source() == s[..n]
    requires Source(Lex(s[n..]).value) == s[n..]
    ensures Source(Lex(s).value) == s
  {
    assert Lex(s).value[1..] == Lex(s[n..]).value;
    assert s[..n] + s[n..] == s;
  }

  /** How many tokens come before the first terminator. */
  function BeforeSemi(toks: seq<Lexeme>): (k: nat)
    ensures k <= |toks| && (k < |toks| ==> toks[k].SemiMark?)
    ensures forall j :: 0 <= j < k ==> !toks[j].SemiMark?
  {
    if toks == [] || toks[0].SemiMark? then 0 else 1 + BeforeSemi(toks[1..])
  }

  /** The text of tokens with every comment replaced by one space. */
  function Uncommented(toks: seq<Lexeme>): string {
    if toks == [] then ""
    else (if toks[0].CommentText? then " " else toks[0].Source()) + Uncommented(toks[1..])
  }

  ghost predicate AllBlank(toks: seq<Lexeme>) {
    forall t :: t in toks ==> t.Blank()
  }

  /** The last token is a line comment that the text ends without a newline. */
  predicate EndsInOpenComment(toks: seq<Lexeme>) {
    && toks != []
    && toks[|toks| - 1].CommentText?
    && OpensLineComment(toks[|toks| - 1].text)
    && IndexOf(toks[|toks| - 1].text, "\n") < 0
  }

  ghost predicate Passes(s: string) {
    Lex(s).Some? && AllBlank(Lex(s).value[BeforeSemi(Lex(s).value)..])
  }

  lemma {:induction false} TailByTokens(s: string)
    ensures !Tail(s).Stopped? <==> Lex(s).Some? && AllBlank(Lex(s).value)
    ensures Tail(s).Dropped? ==> EndsInOpenComment(Lex(s).value)
    ensures Tail(s).Kept? ==> Tail(s).text == "" && !EndsInOpenComment(Lex(s).value)
  {
    if s != "" {
      match NextTail(s)
      case Pass(n) =>
        TailByTokens(s[n..]);
        PassIsBlank(s, n);
        if Lex(s[n..]).Some? {
          BlankCons(PassedText(s, n), Lex(s[n..]).value);
          if Lex(s[n..]) == Some([]) {
            ClosedToken(s, n);
          }
        }
      case OpenComment => OpenIsLast(s);
      case Stop(_) =>
        if Lex(s).Some? {
          assert Lex(s).value[0] in Lex(s).value;
        }
    }
  }

  lemma {:induction false} BlankCons(t: Lexeme, toks: seq<Lexeme>)
    requires t.Blank()
    ensures AllBlank([t] + toks) <==> AllBlank(toks)
    ensures toks != [] ==> EndsInOpenComment([t] + toks) == EndsInOpenComment(toks)
  {
    assert forall x :: x in [t] + toks <==> x == t || x in toks;
  }

  lemma {:induction false} OpenIsLast(s: string)
    requires s != "" && NextTail(s).OpenComment?
    ensures Lex(s) == Some([CommentText(s)])
    ensures EndsInOpenComment([CommentText(s)]) && AllBlank([CommentText(s)])
  {
    assert s[|s|..] == "" && s[..|s|] == s;
    assert NextToken(s) == Comment(|s|);
    assert Lex(s[|s|..]) == Some([]);
    assert [CommentText(s)] + [] == [CommentText(s)];
  }

  /** The token that the scan of the tail passes over. */
  function PassedText(s: string, n: nat): Lexeme
    requires 0 < n <= |s|
  {
    if s[0] == ';' then SemiMark
    else if OpensLineComment(s) || OpensBlockComment(s) then CommentText(s[..n])
    else PieceText(s[..n])
  }

  lemma {:induction false} PassIsBlank(s: string, n: nat)
    requires s != "" && NextTail(s) == Pass(n)
    ensures Lex(s) == Cons(PassedText(s, n), Lex(s[n..]))
    ensures PassedText(s, n).Blank()
  {
    if IsBlank(s[0]) {
      assert NextToken(s) == Piece(1);
    } else if s[0] == ';' {
      assert NextToken(s) == Semi;
    } else {
      assert NextToken(s) == Comment(n);
    }
  }

  /** A blank token that the tail passes over is no open comment. */
  lemma {:induction false} ClosedToken(s: string, n: nat)
    requires s != "" && NextTail(s) == Pass(n) && Lex(s).Some? && Lex(s[n..]) == Some([])
    ensures !EndsInOpenComment(Lex(s).value)
  {
    if OpensLineComment(s) {
      var nl := IndexOf(s, "\n");
      IndexOfFound(s, "\n");
      assert s[nl] == s[nl..][0] == '\n';
      assert s[..n][nl..] == "\n";
      IndexOfFirst(s[..n], "\n", nl);
    }
  }

  /** What the scan of a text with these tokens comes to. */
  function Reading(toks: seq<Lexeme>): Scan {
    var k := BeforeSemi(toks);
    if k < |toks| && EndsInOpenComment(toks[k..]) then Dropped else Kept(Uncommented(toks[..k]))
  }

  /** A text passes exactly when it can be cut into tokens and everything after the first terminator
      is whitespace, terminators and comments. It is turned into the tokens before the terminator
      with a space for each comment; but into nothing when an open line comment ends the rest. */
  lemma {:induction false} StripByTokens(s: string)
    ensures !StripFrom(s).Stopped? <==> Passes(s)
    ensures Passes(s) ==> StripFrom(s) == Reading(Lex(s).value)
  {
    if s != "" {
      match NextToken(s)
      case Comment(n) => StripByTokens(s[n..]); LexStep(s, n, CommentText(s[..n]), " ");
      case Piece(n) => StripByTokens(s[n..]); LexStep(s, n, PieceText(s[..n]), s[..n]);
      case Semi =>
        TailByTokens(s[1..]);
        if Lex(s[1..]).Some? {
          SemiStep(Lex(s[1..]).value);
        }
      case Bad(_) =>
    }
  }

  lemma {:induction false} LexStep(s: string, n: nat, t: Lexeme, kept: string)
    requires n <= |s| && Lex(s) == Cons(t, Lex(s[n..])) && !t.SemiMark?
    requires kept == if t.CommentText? then " " else t.text
    ensures Passes(s) <==> Passes(s[n..])
    ensures Passes(s) ==> Reading(Lex(s).value) == Reading(Lex(s[n..]).value).After(kept)
  {
    if Lex(s).Some? {
      SplitStep(t, Lex(s[n..]).value);
      UncommentedStep(t, kept, Lex(s[n..]).value[..BeforeSemi(Lex(s[n..]).value)]);
    }
  }

  lemma {:induction false} SplitStep(t: Lexeme, rest: seq<Lexeme>)
    requires !t.SemiMark?
    ensures var (toks, k) := ([t] + rest, BeforeSemi(rest));
      BeforeSemi(toks) == k + 1 && toks[k + 1..] == rest[k..] && toks[..k + 1] == [t] + rest[..k]
  {
    assert ([t] + rest)[1..] == rest;
  }

  lemma {:induction false} UncommentedStep(t: Lexeme, kept: string, rest: seq<Lexeme>)
    requires !t.SemiMark? && kept == if t.CommentText? then " " else t.text
    ensures Uncommented([t] + rest) == kept + Uncommented(rest)
  {
    assert ([t] + rest)[1..] == rest;
  }

  lemma {:induction false} SemiStep(toks: seq<Lexeme>)
    ensures BeforeSemi([SemiMark] + toks) == 0
    ensures AllBlank(([SemiMark] + toks)[0..]) <==> AllBlank(toks)
    ensures Reading([SemiMark] + toks) == if EndsInOpenComment(toks) then Dropped else Kept("")
  {
    BlankCons(SemiMark, toks);
    assert ([SemiMark] + toks)[0..] == [SemiMark] + toks;
    assert ([SemiMark] + toks)[..0] == [];
  }
}
