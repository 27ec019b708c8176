/** The backup janitor: evicts directories by age, then the oldest ones until the rest fits. */
module Janitor {
  import opened Wrappers

  const SECOND := 1_000_000_000
  const MAX_BACKUP_AGE := 30 * 24 * 3600 * SECOND
  const MAX_BACKUP_TOTAL_BYTES := 1024 * 1024 * 1024

  /** An entry of the backup root. `info` is its modification time, if reading it works; `size` is
      what walking it yields. Times are in nanoseconds. */
  datatype Entry = Entry(path: string, isDir: bool, info: Option<int>, size: nat)

  predicate Counted(e: Entry) {
    e.isDir && e.info.Some?
  }

  predicate Old(e: Entry, now: int) {
    Counted(e) && now - e.info.value > MAX_BACKUP_AGE
  }

  function ModTime(e: Entry): int {
    if e.info.Some? then e.info.value else 0
  }

  predicate Distinct(entries: seq<Entry>) {
    forall i, j :: 0 <= i < j < |entries| ==> entries[i].path != entries[j].path
  }

  function OldPaths(entries: seq<Entry>, now: int): set<string> {
    set e | e in entries && Old(e, now) :: e.path
  }

  /** The directories that are counted against the cap. */
  function YoungOnes(entries: seq<Entry>, now: int): seq<Entry> {
    if entries == [] then []
    else
      var last := entries[|entries| - 1];
      YoungOnes(entries[..|entries| - 1], now) + if Counted(last) && !Old(last, now) then [last] else []
  }

  /** The bytes of those that are still there. */
  function Remaining(items: seq<Entry>, present: set<string>): nat {
    if items == [] then 0
    else (if items[0].path in present then items[0].size else 0) + Remaining(items[1..], present)
  }

  // ---------- what a cycle achieves ----------

  /** What is left fits, or nothing that is left can be removed. */
  ghost predicate Fits(items: seq<Entry>, present: set<string>, stuck: set<string>) {
    || Remaining(items, present) <= MAX_BACKUP_TOTAL_BYTES
    || forall e :: e in items && e.path in present ==> e.path in stuck
  }

  /** What was evicted is no newer than what survived, unless that cannot be removed. */
  ghost predicate OldestFirst(items: seq<Entry>, present: set<string>, stuck: set<string>) {
    forall e, f ::
      e in items && e.path !in present && f in items && f.path in present && f.path !in stuck ==> ModTime(e) <= ModTime(f)
  }

  /** The newest of what was evicted would not have fitted. */
  ghost predicate Minimal(items: seq<Entry>, present: set<string>) {
    (exists e :: e in items && e.path !in present) ==> exists last :: IsLast(last, items, present)
  }

  ghost predicate IsLast(last: Entry, items: seq<Entry>, present: set<string>) {
    && last in items && last.path !in present
    && Remaining(items, present) + last.size > MAX_BACKUP_TOTAL_BYTES
    && forall e :: e in items && e.path !in present ==> ModTime(e) <= ModTime(last)
  }

  ghost predicate CapDone(items: seq<Entry>, present: set<string>, stuck: set<string>) {
    Fits(items, present, stuck) && OldestFirst(items, present, stuck) && Minimal(items, present)
  }

  /** The whole cycle: `before` and `present` are the paths before and after, `stuck` those that
      cannot be removed. */
  ghost predicate CycleDone(entries: seq<Entry>, now: int, before: set<string>, present: set<string>, stuck: set<string>) {
    && present <= before
    && (forall p :: p in OldPaths(entries, now) && p in present ==> p in stuck)
    && (forall p :: p in before && p !in present ==>
          p !in stuck && exists e :: e in entries && e.path == p && Counted(e))
    && CapDone(YoungOnes(entries, now), present, stuck)
  }

  /** When every removal works, no directory is too old and the rest fits. */
  lemma {:induction false} CleanCycle(entries: seq<Entry>, now: int, before: set<string>, present: set<string>)
    requires CycleDone(entries, now, before, present, {})
    ensures forall e :: e in entries && Counted(e) && e.path in present ==> now - e.info.value <= MAX_BACKUP_AGE
    ensures Remaining(YoungOnes(entries, now), present) <= MAX_BACKUP_TOTAL_BYTES
  {
    assert forall e :: e in entries && Old(e, now) ==> e.path in OldPaths(entries, now);
    var items := YoungOnes(entries, now);
    if Remaining(items, present) > MAX_BACKUP_TOTAL_BYTES {
      NothingLeft(items, present);
    }
  }

  // ---------- what that means for a directory ----------

  /** A directory whose time can be read and is at most 30 days back. */
  predicate Recent(e: Entry, now: int) {
    e.isDir && e.info.Some? && now - e.info.value <= 30 * 24 * 3600 * 1_000_000_000
  }

  /** The bytes of the recent directories that are there. */
  function RecentBytes(entries: seq<Entry>, now: int, present: set<string>): nat {
    if entries == [] then 0
    else
      var e := entries[0];
      (if Recent(e, now) && e.path in present then e.size else 0) + RecentBytes(entries[1..], now, present)
  }

  /** A recent directory that is gone was evicted for the cap: with the newest of those that are gone, the
      recent ones that are left would exceed it. */
  ghost predicate EvictedForCap(entries: seq<Entry>, now: int, present: set<string>, e: Entry) {
    exists last ::
      && last in entries && Recent(last, now) && last.path !in present
      && e.info.Some? && e.info.value <= last.info.value
      && RecentBytes(entries, now, present) + last.size > 1024 * 1024 * 1024
  }

  /** What is no directory, cannot be read or removed, or is not in the root's listing stays. */
  ghost predicate OthersStay(entries: seq<Entry>, before: set<string>, present: set<string>, stuck: set<string>) {
    && present <= before
    && (forall e :: e in entries && (!e.isDir || e.info.None? || e.path in stuck) ==> e.path in present)
    && (forall p :: p in before && (forall e :: e in entries ==> e.path != p) ==> p in present)
  }

  /** What is older than 30 days goes, if it can be removed. */
  ghost predicate OldGo(entries: seq<Entry>, now: int, present: set<string>, stuck: set<string>) {
    forall e :: e in entries && e.isDir && e.info.Some? && !Recent(e, now) && e.path !in stuck ==> e.path !in present
  }

  /** What is recent goes only for the cap, ... */
  ghost predicate RecentGoForCap(entries: seq<Entry>, now: int, present: set<string>) {
    forall e :: e in entries && Recent(e, now) && e.path !in present ==> EvictedForCap(entries, now, present, e)
  }

  /** ... oldest first, ... */
  ghost predicate OldestGoFirst(entries: seq<Entry>, now: int, present: set<string>, stuck: set<string>) {
    forall e, f | e in entries && Recent(e, now) && f in entries && Recent(f, now) ::
      e.path !in present && f.path in present && f.path !in stuck ==> e.info.value <= f.info.value
  }

  /** ... until the rest fits, or cannot be removed. */
  ghost predicate RecentFit(entries: seq<Entry>, now: int, present: set<string>, stuck: set<string>) {
    || RecentBytes(entries, now, present) <= 1024 * 1024 * 1024
    || forall e :: e in entries && Recent(e, now) && e.path in present ==> e.path in stuck
  }

  /** What a cycle does to each entry. */
  ghost predicate Cycled(entries: seq<Entry>, now: int, before: set<string>, present: set<string>, stuck: set<string>) {
    && OthersStay(entries, before, present, stuck)
    && OldGo(entries, now, present, stuck)
    && RecentGoForCap(entries, now, present)
    && OldestGoFirst(entries, now, present, stuck)
    && RecentFit(entries, now, present, stuck)
  }

  lemma {:induction false} RecentSum(entries: seq<Entry>, now: int, present: set<string>)
    ensures Remaining(YoungOnes(entries, now), present) == RecentBytes(entries, now, present)
  {
    if entries != [] {
      var k := |entries| - 1;
      var e := entries[k];
      RecentSum(entries[..k], now, present);
      RemainingConcat(YoungOnes(entries[..k], now), if Recent(e, now) then [e] else [], present);
      RecentSnoc(entries[..k], e, now, present);
      assert entries == entries[..k] + [e];
    }
  }

  lemma {:induction false} RecentSnoc(entries: seq<Entry>, e: Entry, now: int, present: set<string>)
    ensures RecentBytes(entries + [e], now, present)
         == RecentBytes(entries, now, present) + if Recent(e, now) && e.path in present then e.size else 0
  {
    if entries == [] {
      assert [] + [e] == [e] && [e][1..] == [];
    } else {
      assert (entries + [e])[1..] == entries[1..] + [e];
      RecentSnoc(entries[1..], e, now, present);
    }
  }

  lemma {:induction false} EvictionsMean(
    entries: seq<Entry>, now: int, before: set<string>, present: set<string>, stuck: set<string>)
    requires CycleDone(entries, now, before, present, stuck)
    requires Distinct(entries) && forall e :: e in entries ==> e.path in before
    ensures OthersStay(entries, before, present, stuck) && OldGo(entries, now, present, stuck)
  {
    forall e | e in entries && (!e.isDir || e.info.None? || e.path in stuck)
      ensures e.path in present
    {
      assert forall f :: f in entries && f.path == e.path ==> f == e;
    }
    forall e | e in entries && e.isDir && e.info.Some? && !Recent(e, now) && e.path !in stuck
      ensures e.path !in present
    {
      assert Old(e, now) && e.path in OldPaths(entries, now);
    }
  }

  ghost predicate AreRecent(items: seq<Entry>, entries: seq<Entry>, now: int) {
    forall e :: e in items <==> e in entries && Recent(e, now)
  }

  lemma {:induction false} YoungAreRecent(entries: seq<Entry>, now: int)
    ensures AreRecent(YoungOnes(entries, now), entries, now)
  {
    YoungAre(entries, now);
  }

  lemma {:induction false} MinimalMeans(items: seq<Entry>, entries: seq<Entry>, now: int, present: set<string>, e: Entry)
    requires AreRecent(items, entries, now) && Remaining(items, present) == RecentBytes(entries, now, present)
    requires Minimal(items, present) && e in items && e.path !in present
    ensures EvictedForCap(entries, now, present, e)
  {
    var last :| IsLast(last, items, present);
    assert last in items;
  }

  lemma {:induction false} OldestMeans(items: seq<Entry>, entries: seq<Entry>, now: int, present: set<string>, stuck: set<string>)
    requires AreRecent(items, entries, now) && OldestFirst(items, present, stuck)
    ensures OldestGoFirst(entries, now, present, stuck)
  {
    forall e, f | e in entries && Recent(e, now) && f in entries && Recent(f, now)
      ensures e.path !in present && f.path in present && f.path !in stuck ==> e.info.value <= f.info.value
    {
      assert e in items && f in items;
    }
  }

  lemma {:induction false} CapMeans(entries: seq<Entry>, now: int, present: set<string>, stuck: set<string>)
    requires CapDone(YoungOnes(entries, now), present, stuck)
    ensures RecentGoForCap(entries, now, present)
    ensures OldestGoFirst(entries, now, present, stuck) && RecentFit(entries, now, present, stuck)
  {
    var items := YoungOnes(entries, now);
    RecentSum(entries, now, present);
    YoungAreRecent(entries, now);
    OldestMeans(items, entries, now, present, stuck);
    forall e | e in entries && Recent(e, now) && e.path !in present
      ensures EvictedForCap(entries, now, present, e)
    {
      assert e in items;
      MinimalMeans(items, entries, now, present, e);
    }
  }

  lemma {:induction false} CycleMeans(
    entries: seq<Entry>, now: int, before: set<string>, present: set<string>, stuck: set<string>)
    requires CycleDone(entries, now, before, present, stuck)
    requires Distinct(entries) && forall e :: e in entries ==> e.path in before
    ensures Cycled(entries, now, before, present, stuck)
  {
    EvictionsMean(entries, now, before, present, stuck);
    CapMeans(entries, now, present, stuck);
  }

  /** When the recent directories fit the cap together, each of them stays. */
  lemma {:induction false} RecentStay(
    entries: seq<Entry>, now: int, before: set<string>, present: set<string>, stuck: set<string>, e: Entry)
    requires Cycled(entries, now, before, present, stuck)
    requires Distinct(entries) && forall f :: f in entries ==> f.path in before
    requires RecentBytes(entries, now, before) <= 1024 * 1024 * 1024
    requires e in entries && Recent(e, now)
    ensures e.path in present
  {
    forall last | last in entries && Recent(last, now) && last.path !in present
      ensures RecentBytes(entries, now, present) + last.size <= 1024 * 1024 * 1024
    {
      RecentGone(entries, now, before, present, last);
    }
    assert !EvictedForCap(entries, now, present, e);
  }

  /** One that is gone is not among what is left. */
  lemma {:induction false} RecentGone(entries: seq<Entry>, now: int, before: set<string>, present: set<string>, e: Entry)
    requires present <= before && e in entries && Recent(e, now) && e.path in before && e.path !in present
    ensures RecentBytes(entries, now, present) + e.size <= RecentBytes(entries, now, before)
  {
    RecentFewer(entries[1..], now, before, present);
    if entries[0] != e {
      RecentGone(entries[1..], now, before, present, e);
    }
  }

  lemma {:induction false} RecentFewer(entries: seq<Entry>, now: int, before: set<string>, present: set<string>)
    requires present <= before
    ensures RecentBytes(entries, now, present) <= RecentBytes(entries, now, before)
  {
    if entries != [] {
      RecentFewer(entries[1..], now, before, present);
    }
  }

  lemma {:induction false} NothingLeft(items: seq<Entry>, present: set<string>)
    requires forall e :: e in items ==> e.path !in present
    ensures Remaining(items, present) == 0
  {
    if items != [] {
      assert items[0] in items;
      NothingLeft(items[1..], present);
    }
  }

  lemma {:induction false} YoungAre(entries: seq<Entry>, now: int)
    ensures forall e :: e in YoungOnes(entries, now) <==> e in entries && Counted(e) && !Old(e, now)
    ensures Distinct(entries) ==> Distinct(YoungOnes(entries, now))
  {
    if entries != [] {
      var k := |entries| - 1;
      assert entries == entries[..k] + [entries[k]];
      YoungAre(entries[..k], now);
      var young := YoungOnes(entries[..k], now);
      if Distinct(entries) {
        forall i | 0 <= i < |young|
          ensures young[i].path != entries[k].path
        {
          assert young[i] in entries[..k];
        }
      }
    }
  }

  // ---------- the sum ----------

  lemma {:induction false} RemainingConcat(a: seq<Entry>, b: seq<Entry>, present: set<string>)
    ensures Remaining(a + b, present) == Remaining(a, present) + Remaining(b, present)
  {
    if a == [] {
      assert a + b == b;
    } else {
      assert (a + b)[1..] == a[1..] + b;
      RemainingConcat(a[1..], b, present);
    }
  }

  lemma {:induction false} RemainingMiddle(a: seq<Entry>, e: Entry, b: seq<Entry>, present: set<string>)
    ensures Remaining(a + [e] + b, present) == Remaining([e] + (a + b), present)
  {
    RemainingConcat(a + [e], b, present);
    RemainingConcat(a, [e], present);
    RemainingConcat([e], a + b, present);
    RemainingConcat(a, b, present);
  }

  lemma {:induction false} RemainingShuffled(a: seq<Entry>, b: seq<Entry>, present: set<string>)
    requires multiset(a) == multiset(b)
    ensures Remaining(a, present) == Remaining(b, present)
    decreases |a|
  {
    if a == [] {
      assert |multiset(b)| == 0;
    } else {
      assert a[0] in multiset(b);
      var k :| 0 <= k < |b| && b[k] == a[0];
      assert a == [a[0]] + a[1..];
      assert b == b[..k] + [b[k]] + b[k + 1..];
      SameRest(a[1..], a[0], b[..k], b[k + 1..]);
      RemainingShuffled(a[1..], b[..k] + b[k + 1..], present);
      RemainingMiddle(b[..k], b[k], b[k + 1..], present);
      assert ([b[k]] + (b[..k] + b[k + 1..]))[1..] == b[..k] + b[k + 1..];
    }
  }

  lemma {:induction false} SameRest(a: seq<Entry>, e: Entry, b: seq<Entry>, c: seq<Entry>)
    requires multiset([e] + a) == multiset(b + [e] + c)
    ensures multiset(a) == multiset(b + c)
  {
    assert multiset([e] + a) == multiset{e} + multiset(a);
    assert multiset(b + [e] + c) == multiset{e} + multiset(b + c);
    assert multiset(a) == multiset([e] + a) - multiset{e};
  }

  /** Taking away one that is there. */
  lemma {:induction false} RemainingWithout(items: seq<Entry>, i: nat, present: set<string>)
    requires Distinct(items) && i < |items| && items[i].path in present
    ensures Remaining(items, present) == Remaining(items, present - {items[i].path}) + items[i].size
  {
    if i == 0 {
      RemainingElsewhere(items[1..], present, present - {items[0].path});
    } else {
      RemainingWithout(items[1..], i - 1, present);
    }
  }

  lemma {:induction false} RemainingElsewhere(items: seq<Entry>, p: set<string>, q: set<string>)
    requires forall k :: 0 <= k < |items| ==> (items[k].path in p <==> items[k].path in q)
    ensures Remaining(items, p) == Remaining(items, q)
  {
    if items != [] {
      RemainingElsewhere(items[1..], p, q);
    }
  }

  // ---------- sorting ----------

  predicate SortedByAge(items: seq<Entry>) {
    forall i, j :: 0 <= i < j < |items| ==> ModTime(items[i]) <= ModTime(items[j])
  }

  /** sort.Slice by modification time; the order of equal times is not promised. */
  method SortByAge(items: seq<Entry>) returns (sorted: seq<Entry>)
    ensures SortedByAge(sorted) && multiset(sorted) == multiset(items)
  {
    sorted := [];
    for n := 0 to |items|
      invariant SortedByAge(sorted) && multiset(sorted) == multiset(items[..n])
    {
      assert items[..n + 1] == items[..n] + [items[n]];
      sorted := Insert(sorted, items[n]);
    }
    assert items[..|items|] == items;
  }

  method Insert(sorted: seq<Entry>, e: Entry) returns (r: seq<Entry>)
    requires SortedByAge(sorted)
    ensures SortedByAge(r) && multiset(r) == multiset(sorted) + multiset{e}
  {
    var k := |sorted|;
    while k > 0 && ModTime(sorted[k - 1]) > ModTime(e)
      invariant 0 <= k <= |sorted|
      invariant k < |sorted| ==> ModTime(sorted[k]) > ModTime(e)
    {
      k := k - 1;
    }
    InsertedSorted(sorted, e, k);
    assert sorted == sorted[..k] + sorted[k..];
    r := sorted[..k] + [e] + sorted[k..];
  }

  lemma {:induction false} InsertedSorted(sorted: seq<Entry>, e: Entry, k: nat)
    requires SortedByAge(sorted) && k <= |sorted|
    requires k > 0 ==> ModTime(sorted[k - 1]) <= ModTime(e)
    requires k < |sorted| ==> ModTime(sorted[k]) > ModTime(e)
    ensures SortedByAge(sorted[..k] + [e] + sorted[k..])
  {
    var r := sorted[..k] + [e] + sorted[k..];
    forall i, j | 0 <= i < j < |r|
      ensures ModTime(r[i]) <= ModTime(r[j])
    {
      assert r[i] == if i < k then sorted[i] else if i == k then e else sorted[i - 1];
      assert r[j] == if j < k then sorted[j] else if j == k then e else sorted[j - 1];
    }
  }

  lemma {:induction false} ShuffleKeepsDistinct(a: seq<Entry>, b: seq<Entry>)
    requires Distinct(a) && multiset(a) == multiset(b)
    ensures Distinct(b)
  {
    forall i, j | 0 <= i < j < |b|
      ensures b[i].path != b[j].path
    {
      if b[i].path == b[j].path {
        assert b[i] in multiset(a) && b[j] in multiset(a);
        var m :| 0 <= m < |a| && a[m] == b[i];
        var n :| 0 <= n < |a| && a[n] == b[j];
        assert m == n;
        Twice(b, i, j);
        Once(a, m);
        assert false;
      }
    }
  }

  lemma {:induction false} Twice(s: seq<Entry>, i: nat, j: nat)
    requires i < j < |s| && s[i] == s[j]
    ensures multiset(s)[s[i]] >= 2
  {
    assert s == s[..j] + ([s[j]] + s[j + 1..]);
    assert s[..j][i] in multiset(s[..j]);
  }

  lemma {:induction false} Once(s: seq<Entry>, i: nat)
    requires Distinct(s) && i < |s|
    ensures multiset(s)[s[i]] == 1
  {
    assert s == s[..i] + ([s[i]] + s[i + 1..]);
    assert s[i] !in s[..i] && s[i] !in s[i + 1..];
  }

  // ---------- the cycle ----------

  /** The backup root. Removing one of the stuck directories fails. */
  class BackupRoot {
    var present: set<string>
    const stuck: set<string>

    constructor (present: set<string>, stuck: set<string>)
      ensures this.present == present && this.stuck == stuck
    {
      this.present, this.stuck := present, stuck;
    }

    method RemoveAll(path: string) returns (ok: bool)
      modifies this
      ensures ok <==> path !in stuck
      ensures present == if ok then old(present) - {path} else old(present)
    {
      ok := path !in stuck;
      if ok {
        present := present - {path};
      }
    }
  }

  /** Age eviction, in the order of the listing. */
  method EvictOld(root: BackupRoot, entries: seq<Entry>, now: int) returns (keep: seq<Entry>, totalBytes: nat)
    requires Distinct(entries) && forall e :: e in entries ==> e.path in root.present
    modifies root
    ensures keep == YoungOnes(entries, now) && totalBytes == Remaining(keep, root.present)
    ensures root.present == old(root.present) - (OldPaths(entries, now) - root.stuck)
    ensures forall e :: e in keep ==> e.path in root.present
  {
    keep, totalBytes := [], 0;
    ghost var before := root.present;
    for n := 0 to |entries|
      invariant keep == YoungOnes(entries[..n], now) && totalBytes == Remaining(keep, before)
      invariant root.present == before - (OldPaths(entries[..n], now) - root.stuck)
    {
      OneMore(entries, n, now, before);
      var e := entries[n];
      if Old(e, now) {
        var _ := root.RemoveAll(e.path);
      } else if Counted(e) {
        totalBytes := totalBytes + e.size;
        keep := keep + [e];
      }
    }
    assert entries[..|entries|] == entries;
    YoungStay(entries, now, before, root.present);
  }

  lemma {:induction false} OneMore(entries: seq<Entry>, n: nat, now: int, before: set<string>)
    requires Distinct(entries) && n < |entries| && forall e :: e in entries ==> e.path in before
    ensures var e := entries[n];
      var young := YoungOnes(entries[..n], now);
      && e.path !in OldPaths(entries[..n], now)
      && OldPaths(entries[..n + 1], now) == OldPaths(entries[..n], now) + (if Old(e, now) then {e.path} else {})
      && YoungOnes(entries[..n + 1], now) == young + (if Counted(e) && !Old(e, now) then [e] else [])
      && Remaining(young + [e], before) == Remaining(young, before) + e.size
  {
    var e := entries[n];
    var (old', new') := (entries[..n], entries[..n + 1]);
    assert new' == old' + [e] && new'[..|new'| - 1] == old';
    assert e in entries;
    RemainingConcat(YoungOnes(old', now), [e], before);
  }

  lemma {:induction false} YoungNotOld(entries: seq<Entry>, now: int, e: Entry)
    requires Distinct(entries) && e in YoungOnes(entries, now)
    ensures e in entries && e.path !in OldPaths(entries, now)
  {
    YoungAre(entries, now);
  }

  lemma {:induction false} YoungStay(entries: seq<Entry>, now: int, before: set<string>, present: set<string>)
    requires Distinct(entries) && present <= before && before - present <= OldPaths(entries, now)
    requires forall e :: e in entries ==> e.path in before
    ensures Remaining(YoungOnes(entries, now), before) == Remaining(YoungOnes(entries, now), present)
    ensures forall e :: e in YoungOnes(entries, now) ==> e.path in present
  {
    var young := YoungOnes(entries, now);
    forall e | e in young
      ensures e.path in present
    {
      YoungNotOld(entries, now, e);
    }
    YoungAre(entries, now);
    RemainingElsewhere(young, before, present);
  }

  /** Cap eviction, oldest first. */
  method EvictOverCap(root: BackupRoot, keep: seq<Entry>, total: nat)
    requires Distinct(keep) && SortedByAge(keep) && total == Remaining(keep, root.present)
    requires forall e :: e in keep ==> e.path in root.present
    modifies root
    ensures CapDone(keep, root.present, root.stuck)
    ensures root.present <= old(root.present)
    ensures forall p :: p in old(root.present) - root.present ==> p !in root.stuck && exists e :: e in keep && e.path == p
  {
    var totalBytes := total;
    for n := 0 to |keep|
      invariant totalBytes == Remaining(keep, root.present)
      invariant root.present <= old(root.present)
      invariant forall i :: n <= i < |keep| ==> keep[i].path in root.present
      invariant forall i :: 0 <= i < n ==> (keep[i].path in root.present <==> keep[i].path in root.stuck)
      invariant forall p :: p in old(root.present) - root.present ==> p !in root.stuck && exists e :: e in keep && e.path == p
      invariant Minimal(keep, root.present)
    {
      if totalBytes <= MAX_BACKUP_TOTAL_BYTES {
        Stopped(keep, n, root.present, root.stuck);
        return;
      }
      var e := keep[n];
      ghost var before := root.present;
      var ok := root.RemoveAll(e.path);
      if ok {
        RemainingWithout(keep, n, before);
        totalBytes := totalBytes - e.size;
        assert IsLast(e, keep, root.present);
      }
    }
    Stopped(keep, |keep|, root.present, root.stuck);
  }

  lemma {:induction false} Stopped(keep: seq<Entry>, n: nat, present: set<string>, stuck: set<string>)
    requires SortedByAge(keep) && n <= |keep|
    requires n < |keep| ==> Remaining(keep, present) <= MAX_BACKUP_TOTAL_BYTES
    requires forall i :: n <= i < |keep| ==> keep[i].path in present
    requires forall i :: 0 <= i < n ==> (keep[i].path in present <==> keep[i].path in stuck)
    ensures Fits(keep, present, stuck) && OldestFirst(keep, present, stuck)
  {
    forall e, f | e in keep && e.path !in present && f in keep && f.path in present && f.path !in stuck
      ensures ModTime(e) <= ModTime(f)
    {
      var i :| 0 <= i < |keep| && keep[i] == e;
      var j :| 0 <= j < |keep| && keep[j] == f;
    }
  }

  /** The two evictions together. */
  lemma {:induction false} Together(
    entries: seq<Entry>, now: int, before: set<string>, middle: set<string>, present: set<string>, stuck: set<string>)
    requires middle == before - (OldPaths(entries, now) - stuck)
    requires present <= middle && Distinct(entries)
    requires forall p :: p in middle - present ==> p !in stuck && exists e :: e in YoungOnes(entries, now) && e.path == p
    requires CapDone(YoungOnes(entries, now), present, stuck)
    ensures CycleDone(entries, now, before, present, stuck)
  {
    YoungAre(entries, now);
    forall p | p in before && p !in present
      ensures p !in stuck && exists e :: e in entries && e.path == p && Counted(e)
    {
      if p in middle {
        assert p in middle - present;
      } else {
        assert p in OldPaths(entries, now);
      }
    }
  }

  /** One cycle. `listing` is what reading the root yields. */
  method RunJanitorCycle(root: BackupRoot, listing: Option<seq<Entry>>, now: int)
    requires listing.Some? ==>
      Distinct(listing.value) && forall e :: e in listing.value ==> e.path in root.present
    modifies root
    ensures listing.None? ==> root.present == old(root.present)
    ensures listing.Some? ==> CycleDone(listing.value, now, old(root.present), root.present, root.stuck)
    ensures listing.Some? ==> Cycled(listing.value, now, old(root.present), root.present, root.stuck)
  {
    if listing.None? {
      return;
    }
    var entries := listing.value;
    var keep, totalBytes := EvictOld(root, entries, now);
    ghost var middle := root.present;
    if totalBytes <= MAX_BACKUP_TOTAL_BYTES {
      Together(entries, now, old(root.present), middle, middle, root.stuck);
      CycleMeans(entries, now, old(root.present), root.present, root.stuck);
      return;
    }
    var sorted := SortByAge(keep);
    YoungAre(entries, now);
    ShuffleKeepsDistinct(keep, sorted);
    RemainingShuffled(keep, sorted, middle);
    SameMembers(keep, sorted);
    EvictOverCap(root, sorted, totalBytes);
    CapShuffled(sorted, keep, root.present, root.stuck);
    Together(entries, now, old(root.present), middle, root.present, root.stuck);
    CycleMeans(entries, now, old(root.present), root.present, root.stuck);
  }

  lemma {:induction false} SameMembers(a: seq<Entry>, b: seq<Entry>)
    requires multiset(a) == multiset(b)
    ensures forall e :: e in a <==> e in b
  {
    forall e
      ensures e in a <==> e in b
    {
      assert e in multiset(a) <==> e in multiset(b);
    }
  }

  lemma {:induction false} CapShuffled(a: seq<Entry>, b: seq<Entry>, present: set<string>, stuck: set<string>)
    requires multiset(a) == multiset(b) && CapDone(a, present, stuck)
    ensures CapDone(b, present, stuck)
  {
    SameMembers(a, b);
    RemainingShuffled(a, b, present);
    if e :| e in b && e.path !in present {
      var last :| IsLast(last, a, present);
      assert IsLast(last, b, present);
    }
  }
}
