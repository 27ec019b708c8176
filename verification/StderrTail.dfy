/** The writer that keeps the end of a dump tool's error output. */
module StderrTail {
  import opened Bytes

  /** The last `n` bytes. */
  function TailOf(s: seq<Byte>, n: nat): (t: seq<Byte>)
    ensures |t| <= n && |t| <= |s| && (|t| < n ==> t == s)
  {
    if |s| <= n then s else s[|s| - n..]
  }

  /** What was dropped before does not matter for the last `n` bytes. */
  lemma {:induction false} TailOfMore(s: seq<Byte>, p: seq<Byte>, n: nat)
    ensures TailOf(TailOf(s, n) + p, n) == TailOf(s + p, n)
  {
  }

  lemma {:induction false} TailOfLong(s: seq<Byte>, p: seq<Byte>, n: nat)
    requires |p| >= n
    ensures TailOf(s + p, n) == p[|p| - n..]
  {
  }

  class BoundedWriter {
    const cap: nat
    var buf: seq<Byte>
    /** All that was written. */
    ghost var written: seq<Byte>

    ghost predicate Valid()
      reads this
    {
      buf == TailOf(written, cap)
    }

    constructor (cap: nat)
      ensures Valid() && this.cap == cap && written == []
    {
      this.cap, buf, written := cap, [], [];
    }

    /** However the output is cut into writes, the end of all of it is kept. */
    method Write(p: seq<Byte>) returns (n: nat)
      requires Valid()
      modifies this
      ensures Valid() && written == old(written) + p && n == |p|
    {
      written := written + p;
      n := |p|;
      if |p| >= cap {
        buf := p[|p| - cap..];
        TailOfLong(old(written), p, cap);
        return;
      }
      TailOfMore(old(written), p, cap);
      var overflow := |buf| + |p| - cap;
      if overflow > 0 {
        buf := buf[overflow..];
      }
      buf := buf + p;
    }
  }
}
