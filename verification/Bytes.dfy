/** Bytes, big-endian integers, and the two directions of block framing: gluing and cutting. */
module Bytes {

  type Byte = x: int | 0 <= x < 256

  // ---------- big-endian integers ----------

  function Pow256(width: nat): (p: nat)
    ensures p > 0
  {
    if width == 0 then 1 else 256 * Pow256(width - 1)
  }

  /** The low `width` bytes of `v`, most significant first: what PutUint32 and PutUint64 store. */
  function BigEndian(width: nat, v: nat): (s: seq<Byte>)
    ensures |s| == width
  {
    if width == 0 then [] else BigEndian(width - 1, v / 256) + [v % 256]
  }

  function FromBigEndian(s: seq<Byte>): nat {
    if s == [] then 0 else 256 * FromBigEndian(s[..|s| - 1]) + s[|s| - 1]
  }

  /** Decoding returns the value modulo the field's range, so exactly the value when it fits. */
  lemma {:induction false} BigEndianRoundTrip(width: nat, v: nat)
    requires v < Pow256(width)
    ensures FromBigEndian(BigEndian(width, v)) == v
  {
    if width > 0 {
      BigEndianRoundTrip(width - 1, v / 256);
      var s := BigEndian(width, v);
      assert s[..|s| - 1] == BigEndian(width - 1, v / 256);
    }
  }

  lemma {:induction false} BigEndianInjective(width: nat, a: nat, b: nat)
    requires a < Pow256(width) && b < Pow256(width)
    requires BigEndian(width, a) == BigEndian(width, b)
    ensures a == b
  {
    BigEndianRoundTrip(width, a);
    BigEndianRoundTrip(width, b);
  }

  lemma {:induction false} PowerValues()
    ensures Pow256(4) == 0x1_0000_0000
    ensures Pow256(8) == 0x1_0000_0000_0000_0000
  {
    assert Pow256(2) == 0x1_0000;
    assert Pow256(4) == 256 * (256 * Pow256(2));
    assert Pow256(6) == 256 * (256 * Pow256(4));
    assert Pow256(8) == 256 * (256 * Pow256(6));
  }

  // ---------- gluing and cutting ----------

  function Flatten<T>(ss: seq<seq<T>>): seq<T> {
    if ss == [] then [] else ss[0] + Flatten(ss[1..])
  }

  lemma {:induction false} FlattenConcat<T>(a: seq<seq<T>>, b: seq<seq<T>>)
    ensures Flatten(a + b) == Flatten(a) + Flatten(b)
  {
    if a == [] {
      assert a + b == b;
    } else {
      assert (a + b)[1..] == a[1..] + b;
      FlattenConcat(a[1..], b);
    }
  }

  lemma {:induction false} FlattenSnoc<T>(a: seq<seq<T>>, x: seq<T>)
    ensures Flatten(a + [x]) == Flatten(a) + x
  {
    FlattenConcat(a, [x]);
    assert [x][1..] == [];
    assert Flatten([x]) == x;
  }

  /** Cuts `s` into blocks of exactly `n`, the last one holding the remainder; no block is empty. */
  function Chunks<T>(n: nat, s: seq<T>): (cs: seq<seq<T>>)
    requires n > 0
    decreases |s|
  {
    if s == [] then [] else if |s| <= n then [s] else [s[..n]] + Chunks(n, s[n..])
  }

  /** All blocks are full, except that the last may be shorter but not empty. */
  ghost predicate FullButLast<T>(n: nat, cs: seq<seq<T>>) {
    forall k :: 0 <= k < |cs| ==> 0 < |cs[k]| <= n && (k < |cs| - 1 ==> |cs[k]| == n)
  }

  /** There is only one way to cut a sequence like that, so any writer that keeps the shape
      produces `Chunks`, whatever the sizes of the writes it was fed. */
  lemma {:induction false} ChunksUnique<T>(n: nat, cs: seq<seq<T>>)
    requires n > 0 && FullButLast(n, cs)
    ensures Chunks(n, Flatten(cs)) == cs
    decreases |cs|
  {
    if cs != [] {
      var rest := cs[1..];
      assert forall k :: 0 <= k < |rest| ==> rest[k] == cs[k + 1];
      assert FullButLast(n, rest);
      ChunksUnique(n, rest);
      if rest == [] {
        assert Flatten(cs) == cs[0];
      } else {
        assert |rest[0]| > 0;
        assert Flatten(rest) == rest[0] + Flatten(rest[1..]);
        assert Flatten(cs)[..n] == cs[0];
        assert Flatten(cs)[n..] == Flatten(rest);
      }
    }
  }

  /** Cutting loses nothing, has the block shape, and yields the rounded-up number of blocks. */
  lemma {:induction false} ChunksShape<T>(n: nat, s: seq<T>)
    requires n > 0
    ensures Flatten(Chunks(n, s)) == s
    ensures FullButLast(n, Chunks(n, s))
    ensures |Chunks(n, s)| == CeilDiv(|s|, n)
    decreases |s|
  {
    if s == [] {
    } else if |s| <= n {
      assert [s][1..] == [];
      assert Flatten([s]) == s;
      CeilDivStep(|s|, n);
    } else {
      ChunksShape(n, s[n..]);
      CeilDivStep(|s|, n);
      assert Chunks(n, s)[1..] == Chunks(n, s[n..]);
      assert s[..n] + s[n..] == s;
    }
  }

  function CeilDiv(a: nat, n: nat): (q: nat)
    requires n > 0
    decreases a
  {
    if a == 0 then 0 else if a <= n then 1 else 1 + CeilDiv(a - n, n)
  }

  lemma {:induction false} CeilDivStep(a: nat, n: nat)
    requires n > 0 && a > 0
    ensures CeilDiv(a, n) == 1 + CeilDiv(if a <= n then 0 else a - n, n)
  {
  }

  /** The recursive count is the arithmetic one: `q` blocks are enough and `q - 1` are not. */
  lemma {:induction false} CeilDivBounds(a: nat, n: nat)
    requires n > 0
    ensures a <= n * CeilDiv(a, n) < a + n
    decreases a
  {
    if a > n {
      CeilDivBounds(a - n, n);
    } 
  }
}
