/** Shell quoting, against the token recognition and quoting rules of the POSIX shell (sections 2.2,
    2.3, 2.6.2 and 2.7.4 of the POSIX.1-2017 Shell Command Language). */
module Shell {
  import opened Wrappers
  import opened Strings

  // ---------- the shell's side ----------

  /** Where in a word the `$` of a parameter stands that the shell replaces, and whether that is between
      double quotes, so that the value stays one field. */
  datatype Expansion = Expansion(at: nat, quoted: bool)

  /** A word after quote removal, without or with parameters in it that are yet to be replaced; an
      operator; or the text of a here-document. */
  datatype Token = Word(text: string) | Live(text: string, params: seq<Expansion>) | Op(text: string) | HereDoc(text: string)

  /** A here-document that is to come: its delimiter, whether any of that was quoted, and whether
      leading tabs are dropped. */
  datatype Delimiter = Delimiter(text: string, quoted: bool, tabs: bool)

  /** The here-documents that the current line asks for. While the delimiter of one more is awaited,
      `awaited` tells whether it drops tabs, and `quoted` whether the delimiter is quoted so far. */
  datatype Here = Here(pending: seq<Delimiter>, awaited: Option<bool>, quoted: bool)

  const NONE := Here([], None, false)

  datatype Mode =
    | Gap                  // between words
    | InWord
    | InOp(op: string)     // in an operator that may go on
    | InSingle
    | InDouble
    | Escaped(from: Mode)
    | Dollar(from: Mode)   // after a `$` in a word, or between double quotes
    | InComment
    | InHere(doc: Delimiter, more: seq<Delimiter>, text: string, line: string)

  /** The tokens read, where the reader is, the word being read and the parameters in it. A text is not
      covered that uses expansions other than `$` with a name, a digit or a special parameter (`${`, `$(`
      and backquotes, outside single quotes; and all of these, `$` and backslashes in a here-document
      whose delimiter is not quoted), or that has no word where a delimiter is awaited. */
  datatype Reader =
    | Reader(done: seq<Token>, mode: Mode, word: string, live: seq<Expansion>, here: Here)
    | Unsupported

  /** A reader of a text without here-documents, in a word without parameters. */
  function At(done: seq<Token>, mode: Mode, word: string): Reader {
    Reader(done, mode, word, [], NONE)
  }

  const START := At([], Gap, "")

  /** The bytes that start an operator, other than the newline. */
  predicate StartsOperator(c: char) {
    c == '&' || c == '|' || c == ';' || c == '<' || c == '>' || c == '(' || c == ')'
  }

  /** The operators of several bytes. */
  predicate IsLongOperator(s: string) {
    s in {"&&", "||", ";;", "<<", "<&", ">&", "<>", ">>", ">|", "<<-"}
  }

  function Step(r: Reader, c: char): Reader {
    if r.Unsupported? then r
    else
      match r.mode
      case Gap => AtGap(r, c)
      case InOp(op) =>
        if IsLongOperator(op + [c]) then r.(mode := InOp(op + [c]))
        else if c == '\\' then r.(mode := Escaped(r.mode))
        else AtGap(EndOp(r, op), c)
      case InWord =>
        if c == ' ' || c == '\t' || c == '\n' || StartsOperator(c) then AtGap(EndWord(r), c)
        else Unquoted(r, c)
      case InSingle => if c == '\'' then r.(mode := InWord) else r.(word := r.word + [c])
      case InDouble =>
        if c == '"' then r.(mode := InWord)
        else if c == '\\' then r.(mode := Escaped(InDouble))
        else if c == '$' then Parameter(r, InDouble)
        else if c == '`' then Unsupported
        else r.(word := r.word + [c])
      case Dollar(m) =>
        if NamesParameter(c) then r.(mode := m, word := r.word + [c]) else Unsupported
      case Escaped(InDouble) =>
        if c == '\n' then r.(mode := InDouble)
        else if c == '$' || c == '`' || c == '"' || c == '\\' then r.(mode := InDouble, word := r.word + [c])
        else r.(mode := InDouble, word := r.word + ['\\', c])
      case Escaped(m) =>
        if c == '\n' then r.(mode := m) else Literal(r, m, c)
      case InComment => if c == '\n' then EndLine(r) else r
      case InHere(doc, more, text, line) => InsideHere(r, c)
  }

  /** A byte that can follow the `$` of a parameter (section 2.6.2); what else follows a name is read as
      part of the word. */
  predicate NamesParameter(c: char) {
    || 'a' <= c <= 'z' || 'A' <= c <= 'Z' || '0' <= c <= '9' || c == '_'
    || c in {'@', '*', '#', '?', '-', '$', '!'}
  }

  /** A `$` that is not quoted, or between double quotes. */
  function Parameter(r: Reader, back: Mode): Reader
    requires r.Reader?
  {
    r.(mode := Dollar(back), word := r.word + ['$'], live := r.live + [Expansion(|r.word|, back.InDouble?)])
  }

  /** A byte between words. */
  function AtGap(r: Reader, c: char): Reader
    requires r.Reader?
  {
    if c == ' ' || c == '\t' then r
    else if c == '\n' then if r.here.awaited.Some? then Unsupported else EndLine(r)
    else if StartsOperator(c) then if r.here.awaited.Some? then Unsupported else r.(mode := InOp([c]))
    else if c == '#' then if r.here.awaited.Some? then Unsupported else r.(mode := InComment)
    else Unquoted(r, c)
  }

  /** A byte that starts or continues a word. */
  function Unquoted(r: Reader, c: char): Reader
    requires r.Reader?
  {
    var q := Quoted(r);
    if c == '\'' then q.(mode := InSingle)
    else if c == '"' then q.(mode := InDouble)
    else if c == '\\' then r.(mode := Escaped(r.mode))
    else if c == '$' then Parameter(r, InWord)
    else if c == '`' then Unsupported
    else r.(mode := InWord, word := r.word + [c])
  }

  /** A byte after a backslash; an operator before it ends. */
  function Literal(r: Reader, m: Mode, c: char): Reader
    requires r.Reader?
  {
    var q := Quoted(if m.InOp? then EndOp(r, m.op) else r);
    q.(mode := InWord, word := q.word + [c])
  }

  /** The word has a quoted part, which matters if it is a delimiter. */
  function Quoted(r: Reader): (q: Reader)
    requires r.Reader?
    ensures q.Reader?
  {
    if r.here.awaited.Some? then r.(here := r.here.(quoted := true)) else r
  }

  function EndWord(r: Reader): (e: Reader)
    requires r.Reader?
    ensures e.Reader?
  {
    var here := if r.here.awaited.None? then r.here
                else Here(r.here.pending + [Delimiter(r.word, r.here.quoted, r.here.awaited.value)], None, false);
    Reader(r.done + [if r.live == [] then Word(r.word) else Live(r.word, r.live)], Gap, "", [], here)
  }

  function EndOp(r: Reader, op: string): (e: Reader)
    requires r.Reader?
    ensures e.Reader?
  {
    var here := if op == "<<" then r.here.(awaited := Some(false))
                else if op == "<<-" then r.here.(awaited := Some(true))
                else r.here;
    Reader(r.done + [Op(op)], Gap, "", [], here)
  }

  /** A newline token; the here-documents that the line asked for follow it. */
  function EndLine(r: Reader): Reader
    requires r.Reader?
  {
    Reader(r.done + [Op("\n")], NextHere(r.here.pending), "", [], NONE)
  }

  function NextHere(pending: seq<Delimiter>): Mode {
    if pending == [] then Gap else InHere(pending[0], pending[1..], "", "")
  }

  /** A line of a here-document as it counts. */
  function HereLine(doc: Delimiter, line: string): string {
    if doc.tabs then DropTabs(line) else line
  }

  function DropTabs(s: string): string {
    if s != "" && s[0] == '\t' then DropTabs(s[1..]) else s
  }

  function InsideHere(r: Reader, c: char): Reader
    requires r.Reader? && r.mode.InHere?
  {
    var InHere(doc, more, text, line) := r.mode;
    if !doc.quoted && (c == '$' || c == '`' || c == '\\') then Unsupported
    else if c != '\n' then r.(mode := InHere(doc, more, text, line + [c]))
    else if HereLine(doc, line) == doc.text then r.(done := r.done + [HereDoc(text)], mode := NextHere(more))
    else r.(mode := InHere(doc, more, text + HereLine(doc, line) + "\n", ""))
  }

  function Read(r: Reader, s: string): Reader
    decreases |s|
  {
    if s == "" then r else Read(Step(r, s[0]), s[1..])
  }

  /** The tokens of a complete text; none if a quote, an escape or a here-document is open at its end.
      The last line of a here-document may end the text without a newline. */
  function Finish(r: Reader): Option<seq<Token>> {
    if r.Unsupported? then None
    else
      match r.mode
      case Gap => Ended(r)
      case InComment => Ended(r)
      case InWord => Ended(EndWord(r))
      case InOp(op) => Ended(EndOp(r, op))
      case InHere(doc, more, text, line) =>
        if HereLine(doc, line) == doc.text && more == [] then Some(r.done + [HereDoc(text)]) else None
      case _ => None
  }

  function Ended(r: Reader): Option<seq<Token>>
    requires r.Reader?
  {
    if r.here == NONE then Some(r.done) else None
  }

  function Tokens(s: string): Option<seq<Token>> {
    Finish(Read(START, s))
  }

  lemma {:induction false} ReadConcat(r: Reader, a: string, b: string)
    ensures Read(r, a + b) == Read(Read(r, a), b)
    decreases |a|
  {
    if a == "" {
      assert a + b == b;
    } else {
      assert (a + b)[1..] == a[1..] + b;
      ReadConcat(Step(r, a[0]), a[1..], b);
    }
  }

  // ---------- the agent's side ----------

  /** Executor.quoteArg: a quote in the value leaves the quotes for a backslash and a quote. */
  function QuoteArg(s: string): string {
    "'" + ReplaceAll(s, '\'', "'\\''") + "'"
  }

  /** filesystem.shellQuote: a quote in the value leaves the quotes for a double-quoted quote. */
  function ShellQuote(s: string): string {
    "'" + ReplaceAll(s, '\'', "'\"'\"'") + "'"
  }

  function QuoteAll(args: seq<string>): (r: seq<string>)
    ensures |r| == |args| && forall k :: 0 <= k < |args| ==> r[k] == QuoteArg(args[k])
  {
    seq(|args|, k requires 0 <= k < |args| => QuoteArg(args[k]))
  }

  function Line(command: string, args: seq<string>): string {
    if args == [] then command else command + " " + Join(QuoteAll(args), " ")
  }

  /** The head of Executor.Execute: the text handed to the shell. */
  method BuildLine(command: string, args: seq<string>) returns (fullCmd: string)
    ensures fullCmd == Line(command, args)
  {
    fullCmd := command;
    if |args| > 0 {
      var quotedArgs := new string[|args|](_ => "");
      for i := 0 to |args|
        invariant forall k :: 0 <= k < i ==> quotedArgs[k] == QuoteArg(args[k])
      {
        quotedArgs[i] := QuoteArg(args[i]);
      }
      assert quotedArgs[..] == QuoteAll(args);
      fullCmd := command + " " + Join(quotedArgs[..], " ");
    }
  }

  // ---------- both ----------

  /** Inside single quotes, the escape for a quote contributes one quote. */
  ghost predicate Escapes(w: string) {
    forall done, word :: Read(At(done, InSingle, word), w) == At(done, InSingle, word + "'")
  }

  lemma {:induction false} BackslashEscapes(done: seq<Token>, word: string)
    ensures Read(At(done, InSingle, word), "'\\''") == At(done, InSingle, word + "'")
  {
    var (r, a) := (At(done, InSingle, word), "'\\''");
    assert a[1..] == "\\''" && a[1..][1..] == "''" && a[1..][1..][1..] == "'" && a[1..][1..][1..][1..] == "";
    assert Read(r, a) == Read(Step(Step(Step(Step(r, '\''), '\\'), '\''), '\''), "");
  }

  lemma {:induction false} DoubleQuoteEscapes(done: seq<Token>, word: string)
    ensures Read(At(done, InSingle, word), "'\"'\"'") == At(done, InSingle, word + "'")
  {
    var (r, b) := (At(done, InSingle, word), "'\"'\"'");
    assert b[1..] == "\"'\"'" && b[1..][1..] == "'\"'" && b[1..][1..][1..] == "\"'";
    assert b[1..][1..][1..][1..] == "'" && b[1..][1..][1..][1..][1..] == "";
    assert Read(r, b) == Read(Step(Step(Step(Step(Step(r, '\''), '"'), '\''), '"'), '\''), "");
  }

  lemma {:induction false} BothEscape()
    ensures Escapes("'\\''") && Escapes("'\"'\"'")
  {
    forall done, word
      ensures Read(At(done, InSingle, word), "'\\''") == At(done, InSingle, word + "'")
      ensures Read(At(done, InSingle, word), "'\"'\"'") == At(done, InSingle, word + "'")
    {
      BackslashEscapes(done, word);
      DoubleQuoteEscapes(done, word);
    }
  }

  lemma {:induction false} InsideRead(done: seq<Token>, word: string, s: string, w: string)
    requires Escapes(w)
    ensures Read(At(done, InSingle, word), ReplaceAll(s, '\'', w)) == At(done, InSingle, word + s)
    decreases |s|
  {
    if s == "" {
      assert word + s == word;
    } else {
      var p := if s[0] == '\'' then w else [s[0]];
      var r := At(done, InSingle, word);
      ReadConcat(r, p, ReplaceAll(s[1..], '\'', w));
      assert Read(r, p) == At(done, InSingle, word + [s[0]]) by {
        if s[0] != '\'' {
          assert [s[0]][1..] == "";
          assert Read(r, [s[0]]) == Read(Step(r, s[0]), "");
        } else {
          assert [s[0]] == "'";
        }
      }
      InsideRead(done, word + [s[0]], s[1..], w);
      assert word + [s[0]] + s[1..] == word + s;
    }
  }

  /** Quoted text adds exactly the value to the word being read, whatever bytes the value holds. */
  lemma {:induction false} QuotedRead(r: Reader, s: string, w: string)
    requires Escapes(w)
    requires r.Reader? && (r.mode.InWord? || r.mode.Gap?) && r.live == [] && r.here == NONE
    ensures Read(r, "'" + ReplaceAll(s, '\'', w) + "'") == At(r.done, InWord, r.word + s)
  {
    var q := "'" + ReplaceAll(s, '\'', w) + "'";
    assert q[1..] == ReplaceAll(s, '\'', w) + "'";
    assert Step(r, '\'') == At(r.done, InSingle, r.word);
    ReadConcat(At(r.done, InSingle, r.word), ReplaceAll(s, '\'', w), "'");
    InsideRead(r.done, r.word, s, w);
    assert "'"[1..] == "";
  }

  /** Both quoting functions decode to their input. */
  lemma {:induction false} QuotesReadBack(s: string)
    ensures Tokens(QuoteArg(s)) == Some([Word(s)])
    ensures Tokens(ShellQuote(s)) == Some([Word(s)])
  {
    BothEscape();
    QuotedRead(START, s, "'\\''");
    QuotedRead(START, s, "'\"'\"'");
    assert "" + s == s && [] + [Word(s)] == [Word(s)];
  }

  function Words(args: seq<string>): (r: seq<Token>)
    ensures |r| == |args|
  {
    seq(|args|, k requires 0 <= k < |args| => Word(args[k]))
  }

  lemma {:induction false} ArgsRead(done: seq<Token>, args: seq<string>)
    requires args != []
    ensures Finish(Read(At(done, Gap, ""), Join(QuoteAll(args), " "))) == Some(done + Words(args))
    decreases |args|
  {
    BothEscape();
    var r := At(done, Gap, "");
    var q := QuoteAll(args);
    QuotedRead(r, args[0], "'\\''");
    assert "" + args[0] == args[0];
    assert Read(r, q[0]) == At(done, InWord, args[0]);
    if |args| == 1 {
      assert Words(args) == [Word(args[0])];
    } else {
      assert q[1..] == QuoteAll(args[1..]);
      var rest := Join(q[1..], " ");
      assert q[0] + " " + rest == q[0] + (" " + rest);
      ReadConcat(r, q[0], " " + rest);
      assert (" " + rest)[1..] == rest;
      ArgsRead(done + [Word(args[0])], args[1..]);
      assert done + [Word(args[0])] + Words(args[1..]) == done + Words(args);
    }
  }

  /** The line that Execute builds has the command's own tokens and then exactly the arguments, with no
      parameter in them that the shell would replace. For a command that is complete by itself this fails
      exactly when the command ends inside a comment, which the arguments then are part of, or on the last
      line of a here-document, which then goes on. */
  lemma {:induction false} LineRead(command: string, args: seq<string>)
    requires Tokens(command).Some? && args != []
    ensures Tokens(Line(command, args)) == Some(Tokens(command).value + Words(args))
       <==> !(Read(START, command).mode.InComment? || Read(START, command).mode.InHere?)
  {
    var r := Read(START, command);
    var rest := Join(QuoteAll(args), " ");
    assert Line(command, args) == command + (" " + rest);
    ReadConcat(START, command, " " + rest);
    assert (" " + rest)[1..] == rest;
    AllSettled(START, command);
    if r.mode.InComment? {
      CommentSwallows(r, " " + rest);
    } else if r.mode.InHere? {
      SpaceInHere(r);
      HereSwallows(Step(r, ' '), rest, |r.mode.text|);
    } else {
      SpaceEnds(r);
      ArgsRead(Tokens(command).value, args);
    }
  }

  /** A space ends a complete text's last word or operator. */
  lemma {:induction false} SpaceEnds(r: Reader)
    requires Settled(r) && Finish(r).Some? && !r.mode.InComment? && !r.mode.InHere?
    ensures Step(r, ' ') == At(Finish(r).value, Gap, "")
  {
    if r.mode.InOp? {
      NotLong(r.mode.op);
    }
  }

  lemma {:induction false} NotLong(op: string)
    ensures !IsLongOperator(op + [' '])
  {
    var s := op + [' '];
    assert s[|s| - 1] == ' ';
  }

  predicate NoWord(r: Reader)
    requires r.Reader?
  {
    r.word == "" && r.live == []
  }

  /** Between words no word is being read; only single and double quotes, escapes and words have one. */
  predicate Settled(r: Reader) {
    r.Reader? ==>
      && (r.mode.Gap? || r.mode.InComment? || r.mode.InOp? || r.mode.InHere? || r.mode == Escaped(Gap) ==> NoWord(r))
      && (r.mode.InHere? ==> r.here == NONE)
      && (r.mode.Escaped? ==> r.mode.from in {Gap, InWord, InDouble} || (r.mode.from.InOp? && NoWord(r)))
      && (r.mode.Dollar? ==> r.mode.from in {InWord, InDouble})
  }

  lemma {:induction false} GapSettled(r: Reader, c: char)
    requires r.Reader? && r.mode.Gap? && NoWord(r)
    ensures Settled(AtGap(r, c))
  {
  }

  lemma {:induction false} StepSettled(r: Reader, c: char)
    requires Settled(r)
    ensures Settled(Step(r, c))
  {
    if r.Reader? {
      match r.mode
      case Gap => GapSettled(r, c);
      case InOp(op) => GapSettled(EndOp(r, op), c);
      case InWord => GapSettled(EndWord(r), c);
      case _ =>
    }
  }

  lemma {:induction false} AllSettled(r: Reader, s: string)
    requires Settled(r)
    ensures Settled(Read(r, s))
    decreases |s|
  {
    if s != "" {
      StepSettled(r, s[0]);
      AllSettled(Step(r, s[0]), s[1..]);
    }
  }

  /** Once in a comment, the reader has no more tokens than were read before, unless a line ends. */
  lemma {:induction false} CommentSwallows(r: Reader, s: string)
    requires r.Reader? && r.mode.InComment?
    ensures var t := Finish(Read(r, s)); t.Some? && |t.value| > |r.done| ==> t.value[|r.done|] == Op("\n")
  {
    if s != "" {
      if s[0] == '\n' {
        Grows(Step(r, s[0]), s[1..]);
      } else {
        CommentSwallows(r, s[1..]);
      }
    }
  }

  /** A space after a delimiter makes its line longer than the delimiter. */
  lemma {:induction false} SpaceInHere(r: Reader)
    requires r.Reader? && r.mode.InHere? && Finish(r).Some?
    ensures var t := Step(r, ' ');
      && t == r.(mode := r.mode.(line := r.mode.line + [' ']))
      && |HereLine(r.mode.doc, t.mode.line)| > |r.mode.doc.text|
  {
    TabsStay(r.mode.line, ' ');
  }

  lemma {:induction false} TabsStay(line: string, c: char)
    ensures DropTabs(line) != "" || c != '\t' ==> DropTabs(line + [c]) == DropTabs(line) + [c]
    ensures |DropTabs(line + [c])| >= |DropTabs(line)|
  {
    if line == "" {
      assert line + [c] == [c] && DropTabs([c]) == if c == '\t' then DropTabs([c][1..]) else [c];
    } else if line[0] == '\t' {
      assert (line + [c])[1..] == line[1..] + [c];
      TabsStay(line[1..], c);
    }
  }

  /** A here-document that has more than `n` bytes, or will have when its line ends. */
  lemma {:induction false} HereSwallows(r: Reader, s: string, n: nat)
    requires r.Reader? && r.mode.InHere? && |r.mode.text| >= n
    requires |r.mode.text| > n || |HereLine(r.mode.doc, r.mode.line)| > |r.mode.doc.text|
    ensures var t := Finish(Read(r, s));
      t.Some? ==> |t.value| > |r.done| && t.value[|r.done|].HereDoc? && |t.value[|r.done|].text| > n
    decreases |s|
  {
    if s != "" {
      var next := Step(r, s[0]);
      if next.Unsupported? {
        StaysUnsupported(s[1..]);
      } else if next.done == r.done {
        TabsStay(r.mode.line, s[0]);
        HereSwallows(next, s[1..], n);
      } else {
        Grows(next, s[1..]);
      }
    }
  }

  lemma {:induction false} StaysUnsupported(s: string)
    ensures Read(Unsupported, s) == Unsupported
  {
    if s != "" {
      StaysUnsupported(s[1..]);
    }
  }

  lemma {:induction false} StepGrows(r: Reader, c: char)
    requires r.Reader? && Step(r, c).Reader?
    ensures r.done <= Step(r, c).done
  {
  }

  lemma {:induction false} FinishGrows(r: Reader)
    requires r.Reader? && Finish(r).Some?
    ensures r.done <= Finish(r).value
  {
  }

  lemma {:induction false} Grows(r: Reader, s: string)
    ensures r.Reader? && Finish(Read(r, s)).Some? ==> r.done <= Finish(Read(r, s)).value
    decreases |s|
  {
    if r.Reader? && Finish(Read(r, s)).Some? {
      if s == "" {
        FinishGrows(r);
      } else if Step(r, s[0]).Unsupported? {
        StaysUnsupported(s[1..]);
      } else {
        StepGrows(r, s[0]);
        Grows(Step(r, s[0]), s[1..]);
      }
    }
  }
}
