/** Stripping comments twice is stripping them once. Replacing a comment by a space, and dropping
    what follows the terminator, never makes a new comment, quote or dollar quote out of the rest. */
module SqlIdempotence {
  import opened Wrappers
  import opened Strings
  import opened SqlScan
  import opened SqlStrip

  /** `o` is `s` with some stretches replaced by one space each, and possibly cut short. */
  ghost predicate Erased(s: string, o: string)
    decreases |o|
  {
    || o == ""
    || (s != "" && s[0] == o[0] && Erased(s[1..], o[1..]))
    || (o[0] == ' ' && exists n :: 0 < n <= |s| && Erased(s[n..], o[1..]))
  }

  lemma {:induction false} ErasedPrefix(p: string, s: string, o: string)
    requires Erased(s, o)
    ensures Erased(p + s, p + o)
  {
    if p == "" {
      assert p + s == s && p + o == o;
    } else {
      assert (p + s)[1..] == p[1..] + s && (p + o)[1..] == p[1..] + o;
      ErasedPrefix(p[1..], s, o);
    }
  }

  /** What is kept of a text is that text with stretches erased. */
  lemma {:induction false} StripErases(s: string)
    requires StripFrom(s).Kept?
    ensures Erased(s, StripFrom(s).text)
  {
    if s != "" {
      match NextToken(s)
      case Comment(n) =>
        StripErases(s[n..]);
        var o := StripFrom(s[n..]).text;
        assert (" " + o)[1..] == o;
      case Piece(n) =>
        StripErases(s[n..]);
        ErasedPrefix(s[..n], s[n..], StripFrom(s[n..]).text);
        assert s[..n] + s[n..] == s;
      case Semi => TailKeepsNothing(s[1..]);
    }
  }

  lemma {:induction false} TailKeepsNothing(s: string)
    requires Tail(s).Kept?
    ensures Tail(s).text == ""
  {
    if s != "" {
      TailKeepsNothing(s[NextTail(s).len..]);
    }
  }

  /** A word without spaces at the front of what is kept was at the front of the text. */
  lemma {:induction false} ErasedWord(w: string, s: string, o: string)
    requires Erased(s, o) && w <= o && ' ' !in w
    ensures w <= s && Erased(s[|w|..], o[|w|..])
  {
    if w == "" {
      assert s[0..] == s && o[0..] == o;
    } else {
      assert o[0] == w[0] && w[0] in w;
      assert w[1..] <= o[1..];
      ErasedWord(w[1..], s[1..], o[1..]);
      assert s[1..][|w| - 1..] == s[|w|..] && o[1..][|w| - 1..] == o[|w|..];
    }
  }

  /** A word without spaces anywhere in what is kept was somewhere in the text. */
  lemma {:induction false} ErasedContains(w: string, s: string, o: string)
    requires Erased(s, o) && ' ' !in w && w != "" && IndexOf(o, w) >= 0
    ensures IndexOf(s, w) >= 0
    decreases |o|
  {
    if w <= o {
      ErasedWord(w, s, o);
    } else if s != "" && s[0] == o[0] && Erased(s[1..], o[1..]) {
      ErasedContains(w, s[1..], o[1..]);
    } else {
      var n :| 0 < n <= |s| && Erased(s[n..], o[1..]);
      ErasedContains(w, s[n..], o[1..]);
      var k := IndexOf(s[n..], w);
      IndexOfFound(s[n..], w);
      assert s[n..][k..] == s[n + k..];
      IndexOfFirst(s, w, n + k);
    }
  }

  /** A dollar-quote tag at the front of what is kept was at the front of the text. */
  lemma {:induction false} TagStays(s: string, o: string, k: nat)
    requires s != "" && o != "" && s[0] == o[0] == '$'
    requires Erased(s[1..], o[1..])
    requires 0 < k < |o| && o[k] == '$' && forall j :: 1 <= j < k ==> IsTagByte(o[j])
    ensures k < |s| && s[..k + 1] == o[..k + 1] && Erased(s[k + 1..], o[k + 1..])
    ensures TagEnd(s, 1) == k
    ensures ' ' !in o[..k + 1]
  {
    var w := o[1..k + 1];
    assert w <= o[1..];
    forall c | c in w ensures c != ' ' {
      var j :| 0 <= j < |w| && w[j] == c;
      assert o[j + 1] == c;
    }
    ErasedWord(w, s[1..], o[1..]);
    assert s[..k + 1] == [s[0]] + w == o[..k + 1];
    assert o[1..][k..] == o[k + 1..] && s[1..][k..] == s[k + 1..];
    assert forall j :: 1 <= j <= k ==> s[j] == s[..k + 1][j] == o[..k + 1][j] == o[j];
    TagEndExact(s, 1, k);
    assert o[..k + 1] == [o[0]] + w;
  }

  /** A `$` that opens no dollar quote in the text opens none in what is kept. */
  lemma {:induction false} StrayDollarStays(s: string, o: string)
    requires s != "" && o != "" && s[0] == o[0] == '$'
    requires Erased(s[1..], o[1..])
    requires SkipDollar(s) == 0
    ensures SkipDollar(o) == 0
  {
    if SkipDollar(o) > 0 {
      var k := TagEnd(o, 1);
      TagStays(s, o, k);
      assert DollarEnd(o, k) > 0 && DollarEnd(s, k) == 0;
      ErasedContains(o[..k + 1], s[k + 1..], o[k + 1..]);
    }
  }

  /** The token at the front of a text stays the same token when what follows it is stripped. */
  lemma {:induction false} TokenStays(s: string, n: nat, o: string)
    requires s != "" && NextToken(s) == Piece(n) && Erased(s[n..], o)
    ensures NextToken(s[..n] + o) == Piece(n)
  {
    var u := s[..n] + o;
    assert u[0] == s[0];
    assert o != "" ==> o[0] == ' ' || (n < |s| && o[0] == s[n]);
    assert n == 1 && |u| > 1 ==> u[1] == o[0];
    assert n > 1 ==> u[1] == s[1];
    if s[0] == '\'' {
      QuoteEndShape('\'', true, s, 1);
      QuoteEndLocal('\'', true, s, 1, o);
    } else if s[0] == '"' || s[0] == '`' {
      QuoteEndShape(s[0], false, s, 1);
      QuoteEndLocal(s[0], false, s, 1, o);
    } else if s[0] == '$' {
      if SkipDollar(s) > 0 {
        assert forall j :: 0 <= j < n ==> u[j] == s[j];
        DollarLocal(s, u);
      } else {
        assert u[1..] == o;
        StrayDollarStays(s, u);
      }
    }
  }

  /** What is kept of a text is kept whole when it is scanned again. */
  lemma {:induction false} StripFixed(s: string)
    requires StripFrom(s).Kept?
    ensures StripFrom(StripFrom(s).text) == StripFrom(s)
  {
    if s != "" {
      match NextToken(s)
      case Comment(n) =>
        StripFixed(s[n..]);
        var o := StripFrom(s[n..]).text;
        KeptAgain(" ", o);
      case Piece(n) =>
        StripFixed(s[n..]);
        StripErases(s[n..]);
        TokenStays(s, n, StripFrom(s[n..]).text);
        KeptAgain(s[..n], StripFrom(s[n..]).text);
      case Semi => TailKeepsNothing(s[1..]);
    }
  }

  lemma {:induction false} KeptAgain(p: string, o: string)
    requires p != "" && NextToken(p + o) == Piece(|p|)
    requires StripFrom(o) == Kept(o)
    ensures StripFrom(p + o) == Kept(p + o)
  {
    assert (p + o)[|p|..] == o && (p + o)[..|p|] == p;
  }

  /** The function is idempotent: stripping what it returned returns it again. */
  lemma {:induction false} StripIdempotent(sql: string)
    requires Strip(sql).Success?
    ensures Strip(Strip(sql).value) == Strip(sql)
  {
    if StripFrom(sql).Kept? {
      StripFixed(sql);
    }
  }
}
