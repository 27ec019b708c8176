/** The string functions of the Go library that the agent uses. A string is a sequence of bytes,
    written as chars; case and whitespace follow the ASCII rules. */
module Strings {

  // ---------- searching ----------

  /** The first position of `w` in `s`, or -1. */
  function IndexOf(s: string, w: string): (k: int)
    ensures -1 <= k && (k >= 0 ==> k + |w| <= |s|)
  {
    if w <= s then 0
    else if s == "" then -1
    else
      var k := IndexOf(s[1..], w);
      if k < 0 then -1 else k + 1
  }

  lemma {:induction false} IndexOfFound(s: string, w: string)
    requires IndexOf(s, w) >= 0
    ensures w <= s[IndexOf(s, w)..]
  {
    if !(w <= s) {
      IndexOfFound(s[1..], w);
    }
  }

  lemma {:induction false} IndexOfFirst(s: string, w: string, j: nat)
    requires j <= |s| && w <= s[j..]
    ensures 0 <= IndexOf(s, w) <= j
  {
    if j == 0 {
      assert s[0..] == s;
    } else {
      assert s[1..][j - 1..] == s[j..];
      IndexOfFirst(s[1..], w, j - 1);
    }
  }

  /** Two texts that agree up to the end of the first occurrence have it at the same place. */
  lemma {:induction false} IndexOfLocal(s: string, w: string, u: string)
    requires IndexOf(s, w) >= 0 && IndexOf(s, w) + |w| <= |u|
    requires forall j :: 0 <= j < IndexOf(s, w) + |w| ==> s[j] == u[j]
    ensures IndexOf(u, w) == IndexOf(s, w)
  {
    if w <= u {
      assert forall j :: 0 <= j < |w| ==> w[j] == u[j] == s[j];
    } else if !(w <= s) {
      var (s', u') := (s[1..], u[1..]);
      assert forall j :: 0 <= j < IndexOf(s', w) + |w| ==> s'[j] == s[j + 1] == u[j + 1] == u'[j];
      IndexOfLocal(s', w, u');
    }
  }

  // ---------- replacing and joining ----------

  /** strings.ReplaceAll for a one-byte pattern. */
  function ReplaceAll(s: string, c: char, w: string): string {
    if s == "" then "" else (if s[0] == c then w else [s[0]]) + ReplaceAll(s[1..], c, w)
  }

  lemma {:induction false} ReplaceAllConcat(a: string, b: string, c: char, w: string)
    ensures ReplaceAll(a + b, c, w) == ReplaceAll(a, c, w) + ReplaceAll(b, c, w)
  {
    if a == "" {
      assert a + b == b;
    } else {
      assert (a + b)[1..] == a[1..] + b;
      ReplaceAllConcat(a[1..], b, c, w);
    }
  }

  lemma {:induction false} ReplaceNothing(s: string, c: char, w: string)
    requires c !in s
    ensures ReplaceAll(s, c, w) == s
  {
    if s != "" {
      assert forall x :: x in s[1..] ==> x in s;
      ReplaceNothing(s[1..], c, w);
    }
  }

  /** strings.Count for a non-empty word: occurrences from the left that do not overlap. */
  function CountWord(s: string, w: string): nat
    requires w != ""
    decreases |s|
  {
    var k := IndexOf(s, w);
    if k < 0 then 0 else 1 + CountWord(s[k + |w|..], w)
  }

  /** strings.Replace for a non-empty word: the first `n` of those occurrences are replaced. */
  function ReplaceWord(s: string, w: string, v: string, n: nat): string
    requires w != ""
    decreases n
  {
    var k := IndexOf(s, w);
    if n == 0 || k < 0 then s else s[..k] + v + ReplaceWord(s[k + |w|..], w, v, n - 1)
  }

  function Join(parts: seq<string>, sep: string): string {
    if parts == [] then "" else if |parts| == 1 then parts[0] else parts[0] + sep + Join(parts[1..], sep)
  }

  /** strings.Split at a one-byte separator. */
  function Split(s: string, c: char): (parts: seq<string>)
    ensures |parts| >= 1
    decreases |s|
  {
    var k := IndexOf(s, [c]);
    if k < 0 then [s] else [s[..k]] + Split(s[k + 1..], c)
  }

  // ---------- what counting and replacing a word mean ----------

  /** The parts between the occurrences of `w` that do not overlap, from the left: each part but the last
      ends where the first occurrence in the rest of the text begins, and the last part has none. */
  ghost predicate LeftmostCut(parts: seq<string>, w: string)
    requires w != ""
  {
    && parts != []
    && IndexOf(parts[|parts| - 1], w) < 0
    && forall i :: 0 <= i < |parts| - 1 ==> IndexOf(Join(parts[i..], w), w) == |parts[i]|
  }

  lemma {:induction false} CutTail(parts: seq<string>, w: string)
    requires w != "" && |parts| > 1
    ensures LeftmostCut(parts, w) <==> IndexOf(Join(parts, w), w) == |parts[0]| && LeftmostCut(parts[1..], w)
  {
    var rest := parts[1..];
    assert parts[0..] == parts;
    forall i | 0 <= i < |rest|
      ensures rest[i..] == parts[i + 1..]
    {
    }
    if IndexOf(Join(parts, w), w) == |parts[0]| && LeftmostCut(rest, w) {
      forall i | 0 <= i < |parts| - 1
        ensures IndexOf(Join(parts[i..], w), w) == |parts[i]|
      {
        if i > 0 {
          assert rest[i - 1..] == parts[i..] && rest[i - 1] == parts[i];
        }
      }
    }
  }

  lemma {:induction false} JoinFirst(parts: seq<string>, w: string)
    requires |parts| > 1
    ensures var (s, rest) := (Join(parts, w), Join(parts[1..], w));
      s == parts[0] + w + rest && s[..|parts[0]|] == parts[0] && s[|parts[0]| + |w|..] == rest
  {
  }

  /** Every text has such parts. */
  lemma {:induction false} CutExists(s: string, w: string) returns (parts: seq<string>)
    requires w != ""
    ensures LeftmostCut(parts, w) && Join(parts, w) == s
    decreases |s|
  {
    var k := IndexOf(s, w);
    if k < 0 {
      parts := [s];
    } else {
      IndexOfFound(s, w);
      var rest := CutExists(s[k + |w|..], w);
      parts := [s[..k]] + rest;
      assert parts[1..] == rest;
      assert s == s[..k] + w + s[k + |w|..];
      CutTail(parts, w);
    }
  }

  /** Counting counts the cuts, and replacing all of them joins the parts by the new word. */
  lemma {:induction false} CutReplaced(parts: seq<string>, w: string, v: string)
    requires w != "" && LeftmostCut(parts, w)
    ensures CountWord(Join(parts, w), w) == |parts| - 1
    ensures ReplaceWord(Join(parts, w), w, v, |parts| - 1) == Join(parts, v)
    decreases |parts|
  {
    if |parts| > 1 {
      CutTail(parts, w);
      JoinFirst(parts, w);
      JoinFirst(parts, v);
      CutReplaced(parts[1..], w, v);
    }
  }

  /** Replacing one occurrence replaces the first. */
  lemma {:induction false} FirstReplaced(a: string, w: string, b: string, v: string)
    requires w != "" && IndexOf(a + w + b, w) == |a|
    ensures ReplaceWord(a + w + b, w, v, 1) == a + v + b
  {
    var s := a + w + b;
    assert s[..|a|] == a && s[|a| + |w|..] == b;
    assert ReplaceWord(b, w, v, 0) == b;
  }

  lemma {:induction false} IndexOfByte(a: string, c: char, b: string)
    requires c !in a
    ensures IndexOf(a, [c]) == -1
    ensures IndexOf(a + [c] + b, [c]) == |a|
    decreases |a|
  {
    var s := a + [c] + b;
    if a == "" {
      assert [c] <= s;
    } else {
      assert a[0] in a && s[1..] == a[1..] + [c] + b;
      IndexOfByte(a[1..], c, b);
    }
  }

  lemma {:induction false} SplitJoin(parts: seq<string>, c: char)
    requires parts != [] && forall k :: 0 <= k < |parts| ==> c !in parts[k]
    ensures Split(Join(parts, [c]), c) == parts
    decreases |parts|
  {
    if |parts| == 1 {
      IndexOfByte(parts[0], c, "");
    } else {
      var rest := Join(parts[1..], [c]);
      var s := parts[0] + [c] + rest;
      IndexOfByte(parts[0], c, rest);
      assert s[..|parts[0]|] == parts[0] && s[|parts[0]| + 1..] == rest;
      SplitJoin(parts[1..], c);
    }
  }

  lemma {:induction false} JoinSplit(s: string, c: char)
    ensures Join(Split(s, c), [c]) == s
    ensures forall k :: 0 <= k < |Split(s, c)| ==> c !in Split(s, c)[k]
    decreases |s|
  {
    var k := IndexOf(s, [c]);
    if k < 0 {
      forall j | 0 <= j < |s|
        ensures s[j] != c
      {
        if s[j] == c {
          assert [c] <= s[j..];
          IndexOfFirst(s, [c], j);
        }
      }
    } else {
      IndexOfFound(s, [c]);
      assert s[k] == c;
      forall j | 0 <= j < k
        ensures s[j] != c
      {
        if s[j] == c {
          assert [c] <= s[j..];
          IndexOfFirst(s, [c], j);
        }
      }
      JoinSplit(s[k + 1..], c);
      var parts := Split(s, c);
      assert parts[1..] == Split(s[k + 1..], c);
      assert s == s[..k] + [c] + s[k + 1..];
    }
  }

  // ---------- whitespace and case ----------

  predicate IsSpace(c: char) {
    c == ' ' || '\t' <= c <= '\r'
  }

  /** Tab, newline, vertical tab, form feed, carriage return and space. */
  lemma {:induction false} SpacesAre(c: char)
    ensures IsSpace(c) <==> c as int in {9, 10, 11, 12, 13, 32}
  {
  }

  function TrimLeft(s: string): (t: string)
    ensures |t| <= |s|
  {
    if s != "" && IsSpace(s[0]) then TrimLeft(s[1..]) else s
  }

  function TrimRight(s: string): (t: string)
    ensures t <= s
  {
    if s != "" && IsSpace(s[|s| - 1]) then TrimRight(s[..|s| - 1]) else s
  }

  function TrimSpace(s: string): (t: string)
    ensures |t| <= |s|
  {
    TrimRight(TrimLeft(s))
  }

  /** The text ends in a byte that is no space, so trimming leaves its end alone. */
  predicate Ends(s: string) {
    s != "" && !IsSpace(s[|s| - 1])
  }

  lemma {:induction false} Trimmed(s: string)
    requires Ends(s) && !IsSpace(s[0])
    ensures TrimSpace(s) == s
    ensures TrimSpace(" " + s) == s
  {
    assert (" " + s)[1..] == s;
  }

  /** Only the end of a text is trimmed on the right. */
  lemma {:induction false} TrimEnd(a: string, b: string)
    requires Ends(a)
    ensures TrimRight(a + b) == a + TrimRight(b)
    ensures Ends(a + TrimRight(b))
    decreases |b|
  {
    if b == "" {
      assert a + b == a;
    } else if IsSpace(b[|b| - 1]) {
      assert (a + b)[..|a + b| - 1] == a + b[..|b| - 1];
      TrimEnd(a, b[..|b| - 1]);
    }
  }

  function ToLowerByte(c: char): char {
    if 'A' <= c <= 'Z' then (c as int + 32) as char else c
  }

  function ToLower(s: string): (t: string)
    ensures |t| == |s| && forall i :: 0 <= i < |s| ==> t[i] == ToLowerByte(s[i])
  {
    seq(|s|, i requires 0 <= i < |s| => ToLowerByte(s[i]))
  }

  function WordLen(s: string): (n: nat)
    ensures n <= |s|
  {
    if s == "" || IsSpace(s[0]) then 0 else 1 + WordLen(s[1..])
  }

  /** strings.Fields. */
  function Fields(s: string): seq<string>
    decreases |s|
  {
    var t := TrimLeft(s);
    var n := WordLen(t);
    if n == 0 then [] else [t[..n]] + Fields(t[n..])
  }
}
