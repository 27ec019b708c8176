/** The bounded ring of collected log lines, and the sender that drains it while producers push. */
module LogRing {
  import opened Wrappers
  import opened Bytes

  // ---------- the ring ----------

  /** The ring after a push: the oldest line makes room. */
  function Pushed<T>(buf: seq<T>, cap: nat, x: T): seq<T>
    requires cap > 0
  {
    (if |buf| >= cap then buf[1..] else buf) + [x]
  }

  /** The ring after a line is put back at the head: the newest line makes room. */
  function PushedFront<T>(buf: seq<T>, cap: nat, x: T): seq<T>
    requires cap > 0
  {
    [x] + (if |buf| >= cap then buf[..|buf| - 1] else buf)
  }

  class LineRing<T> {
    var buf: seq<T>
    const cap: nat

    ghost predicate Valid()
      reads this
    {
      0 < cap && |buf| <= cap
    }

    constructor (capacity: nat)
      requires capacity > 0
      ensures Valid() && buf == [] && cap == capacity
    {
      buf, cap := [], capacity;
    }

    method Push(l: T)
      requires Valid()
      modifies this
      ensures Valid() && buf == Pushed(old(buf), cap, l)
      ensures |old(buf)| < cap ==> buf == old(buf) + [l]
      ensures |old(buf)| == cap ==> buf == old(buf)[1..] + [l]
    {
      if |buf| >= cap {
        buf := buf[1..];
      }
      buf := buf + [l];
    }

    method PushFront(l: T)
      requires Valid()
      modifies this
      ensures Valid() && buf == PushedFront(old(buf), cap, l)
      ensures |old(buf)| < cap ==> buf == [l] + old(buf)
      ensures |old(buf)| == cap ==> buf == [l] + old(buf)[..cap - 1]
    {
      if |buf| >= cap {
        buf := buf[..|buf| - 1];
      }
      buf := [l] + buf;
    }

    method Pop() returns (l: Option<T>)
      requires Valid()
      modifies this
      ensures Valid()
      ensures l == if old(buf) == [] then None else Some(old(buf)[0])
      ensures buf == if old(buf) == [] then [] else old(buf)[1..]
    {
      if |buf| == 0 {
        return None;
      }
      l := Some(buf[0]);
      buf := buf[1..];
    }
  }

  /** The inner loop of runLogStream over one connection without producers: it sends the oldest line
      until the ring is empty or a send fails, and then puts that line back. The connection takes
      `accepts` lines before it breaks. Nothing is lost, nothing is sent twice. */
  method DrainStream<T>(ring: LineRing<T>, accepts: nat) returns (sent: seq<T>, broken: bool)
    requires ring.Valid()
    modifies ring
    ensures ring.Valid()
    ensures sent + ring.buf == old(ring.buf)
    ensures |sent| == if accepts < |old(ring.buf)| then accepts else |old(ring.buf)|
    ensures broken <==> accepts < |old(ring.buf)|
  {
    sent, broken := [], false;
    while true
      invariant ring.Valid() && sent + ring.buf == old(ring.buf) && |sent| <= accepts
      decreases |ring.buf|
    {
      var line := ring.Pop();
      if line.None? {
        return;
      }
      if |sent| == accepts {
        ring.PushFront(line.value);
        return sent, true;
      }
      sent := sent + [line.value];
    }
  }

  // ---------- every interleaving ----------

  /** Lines are numbered in the order they are pushed. A line that a sender has popped and not yet
      sent is in flight; the senders of overlapping connections share one ring. */
  datatype State = State(
    pushed: nat, buf: seq<nat>, inflight: seq<nat>, delivered: seq<nat>, evicted: multiset<nat>)

  const START := State(0, [], [], [], multiset{})

  datatype Event = Push | Pop | SendOk(i: nat) | SendFail(i: nat)

  function Without<T>(s: seq<T>, i: nat): seq<T>
    requires i < |s|
  {
    s[..i] + s[i + 1..]
  }

  predicate Enabled(senders: nat, s: State, e: Event) {
    match e
    case Push => true
    case Pop => s.buf != [] && |s.inflight| < senders
    case SendOk(i) => i < |s.inflight|
    case SendFail(i) => i < |s.inflight|
  }

  function Next(cap: nat, senders: nat, s: State, e: Event): State
    requires cap > 0 && Enabled(senders, s, e)
  {
    match e
    case Push =>
      s.(pushed := s.pushed + 1,
         buf := Pushed(s.buf, cap, s.pushed),
         evicted := s.evicted + if |s.buf| >= cap then multiset{s.buf[0]} else multiset{})
    case Pop => s.(buf := s.buf[1..], inflight := s.inflight + [s.buf[0]])
    case SendOk(i) => s.(inflight := Without(s.inflight, i), delivered := s.delivered + [s.inflight[i]])
    case SendFail(i) =>
      var x := s.inflight[i];
      s.(inflight := Without(s.inflight, i),
         buf := PushedFront(s.buf, cap, x),
         evicted := s.evicted + if |s.buf| >= cap then multiset{s.buf[|s.buf| - 1]} else multiset{})
  }

  ghost predicate Run(cap: nat, senders: nat, states: seq<State>, events: seq<Event>)
    requires cap > 0
  {
    && |states| == |events| + 1 && states[0] == START
    && forall k :: 0 <= k < |events| ==>
         Enabled(senders, states[k], events[k]) && states[k + 1] == Next(cap, senders, states[k], events[k])
  }

  ghost predicate Increasing(s: seq<nat>) {
    forall i, j :: 0 <= i < j < |s| ==> s[i] < s[j]
  }

  /** In how many places line `x` is. */
  ghost function Places(s: State, x: nat): nat {
    multiset(s.delivered)[x] + multiset(s.inflight)[x] + multiset(s.buf)[x] + s.evicted[x]
  }

  /** Every line that was pushed is in exactly one place, and no other line is anywhere. */
  ghost predicate Conserved(s: State) {
    forall x: nat :: Places(s, x) == if x < s.pushed then 1 else 0
  }

  /** What the senders have: delivered, in flight and buffered, in that order. */
  function Line(s: State): seq<nat> {
    s.delivered + s.inflight + s.buf
  }

  ghost predicate Invariant(cap: nat, senders: nat, s: State) {
    && |s.buf| <= cap
    && |s.inflight| <= senders
    && Conserved(s)
    && (senders <= 1 ==> Increasing(Line(s)) && forall x :: x in Line(s) ==> x < s.pushed)
  }

  function One(c: bool): nat {
    if c then 1 else 0
  }

  lemma {:induction false} CountWithout(s: seq<nat>, i: nat, x: nat)
    requires i < |s|
    ensures multiset(s)[x] == multiset(Without(s, i))[x] + One(x == s[i])
  {
    assert s == s[..i] + ([s[i]] + s[i + 1..]);
  }

  lemma {:induction false} CountPushed(buf: seq<nat>, cap: nat, l: nat, x: nat)
    requires cap > 0
    ensures multiset(Pushed(buf, cap, l))[x] + One(|buf| >= cap && x == buf[0])
         == multiset(buf)[x] + One(x == l)
  {
    if |buf| >= cap {
      CountWithout(buf, 0, x);
      assert buf[1..] == Without(buf, 0);
    }
  }

  lemma {:induction false} CountPushedFront(buf: seq<nat>, cap: nat, l: nat, x: nat)
    requires cap > 0
    ensures multiset(PushedFront(buf, cap, l))[x] + One(|buf| >= cap && x == buf[|buf| - 1])
         == multiset(buf)[x] + One(x == l)
  {
    if |buf| >= cap {
      CountWithout(buf, |buf| - 1, x);
      assert buf[..|buf| - 1] == Without(buf, |buf| - 1);
    }
  }

  /** A step changes the number of places of no line, but that a push puts the new line in one. */
  lemma {:induction false} StepMoves(cap: nat, senders: nat, s: State, e: Event, x: nat)
    requires cap > 0 && Enabled(senders, s, e)
    ensures Places(Next(cap, senders, s, e), x) == Places(s, x) + One(e.Push? && x == s.pushed)
  {
    match e
    case Push => CountPushed(s.buf, cap, s.pushed, x);
    case Pop =>
      CountWithout(s.buf, 0, x);
      assert s.buf[1..] == Without(s.buf, 0);
    case SendOk(i) => CountWithout(s.inflight, i, x);
    case SendFail(i) => FailMoves(cap, s, i, x);
  }

  lemma {:induction false} FailMoves(cap: nat, s: State, i: nat, x: nat)
    requires cap > 0 && i < |s.inflight|
    ensures Places(Next(cap, |s.inflight|, s, SendFail(i)), x) == Places(s, x)
  {
    CountWithout(s.inflight, i, x);
    CountPushedFront(s.buf, cap, s.inflight[i], x);
  }

  lemma {:induction false} StepConserves(cap: nat, senders: nat, s: State, e: Event)
    requires cap > 0 && Enabled(senders, s, e) && Conserved(s)
    ensures Conserved(Next(cap, senders, s, e))
  {
    forall x: nat
      ensures Places(Next(cap, senders, s, e), x) == if x < Next(cap, senders, s, e).pushed then 1 else 0
    {
      StepMoves(cap, senders, s, e, x);
      assert Places(s, x) == if x < s.pushed then 1 else 0;
    }
  }

  lemma {:induction false} DropInside(front: seq<nat>, back: seq<nat>, x: nat)
    requires Increasing(front + back) && (forall y :: y in front + back ==> y < x)
    ensures Increasing(front + back + [x])
    ensures back != [] ==> Increasing(front + back[1..] + [x])
    ensures forall y :: y in front + back + [x] ==> y <= x
    ensures back != [] ==> forall y :: y in front + back[1..] + [x] ==> y <= x
  {
    var s := front + back;
    assert forall i :: 0 <= i < |s| ==> s[i] in s;
    if back != [] {
      var t := front + back[1..];
      assert forall i :: 0 <= i < |t| ==> t[i] == s[if i < |front| then i else i + 1];
      assert forall y :: y in t ==> y in s;
    }
  }

  /** With one sender the line of numbers only loses members and gains new ones at its end. */
  lemma {:induction false} StepKeepsOrder(cap: nat, senders: nat, s: State, e: Event)
    requires cap > 0 && senders <= 1 && Enabled(senders, s, e) && |s.inflight| <= senders
    requires Increasing(Line(s)) && forall x :: x in Line(s) ==> x < s.pushed
    ensures var t := Next(cap, senders, s, e);
      Increasing(Line(t)) && forall x :: x in Line(t) ==> x < t.pushed
  {
    var t := Next(cap, senders, s, e);
    match e
    case Push =>
      var front := s.delivered + s.inflight;
      DropInside(front, s.buf, s.pushed);
      assert Line(t) == front + (if |s.buf| >= cap then s.buf[1..] else s.buf) + [s.pushed];
    case Pop => assert Line(t) == Line(s);
    case SendOk(i) => assert Line(t) == Line(s);
    case SendFail(i) =>
      assert Line(t) == Line(s)[..|Line(t)|];
      assert forall x :: x in Line(t) ==> x in Line(s);
  }

  /** Over every interleaving of pushes with any number of senders: the ring is bounded and every
      pushed line is in exactly one place. With one sender at a time, the lines delivered, in flight
      and buffered are a subsequence of the lines pushed. */
  lemma {:induction false} RunKeepsInvariant(cap: nat, senders: nat, states: seq<State>, events: seq<Event>, n: nat)
    requires cap > 0 && Run(cap, senders, states, events) && n <= |events|
    ensures Invariant(cap, senders, states[n])
  {
    if n > 0 {
      RunKeepsInvariant(cap, senders, states, events, n - 1);
      var (s, e) := (states[n - 1], events[n - 1]);
      assert states[n - 1 + 1] == Next(cap, senders, s, e);
      StepKeepsInvariant(cap, senders, s, e);
    }
  }

  lemma {:induction false} StepKeepsInvariant(cap: nat, senders: nat, s: State, e: Event)
    requires cap > 0 && Enabled(senders, s, e) && Invariant(cap, senders, s)
    ensures Invariant(cap, senders, Next(cap, senders, s, e))
  {
    StepConserves(cap, senders, s, e);
    if senders <= 1 {
      StepKeepsOrder(cap, senders, s, e);
    }
  }

  ghost predicate OrderKept(cap: nat, senders: nat, states: seq<State>, events: seq<Event>)
    requires cap > 0
  {
    Run(cap, senders, states, events) ==> Increasing(states[|events|].delivered)
  }

  /** With several senders the order can be lost: the second line is delivered before the first. */
  lemma {:induction false} SendersCanReorder(cap: nat, senders: nat) returns (states: seq<State>, events: seq<Event>)
    requires cap > 0 && senders >= 2
    ensures !OrderKept(cap, senders, states, events)
  {
    events := [Push, Pop, Push, Pop, SendOk(1), SendOk(0)];
    var s1 := Next(cap, senders, START, Push);
    assert s1 == State(1, [0], [], [], multiset{});
    var s2 := Next(cap, senders, s1, Pop);
    assert s2 == State(1, [], [0], [], multiset{});
    var s3 := Next(cap, senders, s2, Push);
    assert s3 == State(2, [1], [0], [], multiset{});
    var s4 := Next(cap, senders, s3, Pop);
    assert s4 == State(2, [], [0, 1], [], multiset{});
    var s5 := Next(cap, senders, s4, SendOk(1));
    assert s5 == State(2, [], [0], [1], multiset{});
    var s6 := Next(cap, senders, s5, SendOk(0));
    assert s6 == State(2, [], [], [1, 0], multiset{});
    states := [START, s1, s2, s3, s4, s5, s6];
    assert Run(cap, senders, states, events);
    assert s6.delivered[0] == 1 && s6.delivered[1] == 0;
  }

  /** For every size of the ring: all runs deliver in the order of the pushes exactly when there is at
      most one sender. */
  lemma {:induction false} OrderExactly(cap: nat, senders: nat)
    requires cap > 0
    ensures (forall states, events :: OrderKept(cap, senders, states, events)) <==> senders <= 1
  {
    if senders <= 1 {
      forall states, events
        ensures OrderKept(cap, senders, states, events)
      {
        if Run(cap, senders, states, events) {
          RunKeepsInvariant(cap, senders, states, events, |events|);
          DeliveredFirst(states[|events|]);
        }
      }
    } else {
      var states, events := SendersCanReorder(cap, senders);
    }
  }

  lemma {:induction false} DeliveredFirst(s: State)
    requires Increasing(Line(s))
    ensures Increasing(s.delivered)
  {
    assert forall i :: 0 <= i < |s.delivered| ==> Line(s)[i] == s.delivered[i];
  }

  // ---------- truncation of one line ----------

  const MAX_LOG_LINE_BYTES := 16 * 1024

  /** A byte that continues a UTF-8 rune. */
  predicate IsContinuation(b: Byte) {
    0x80 <= b < 0xC0
  }

  predicate Utf8StartsHere(s: seq<Byte>, i: int) {
    i <= 0 || i >= |s| || !IsContinuation(s[i])
  }

  /** A rune in UTF-8: a first byte, and up to three that continue it. */
  predicate IsRune(r: seq<Byte>) {
    && 1 <= |r| <= 4
    && (r[0] < 0x80 || r[0] >= 0xC0)
    && forall i :: 1 <= i < |r| ==> 0x80 <= r[i] <= 0xBF
  }

  ghost predicate AllRunes(runes: seq<seq<Byte>>) {
    forall r :: r in runes ==> IsRune(r)
  }

  /** In a text of runes, the places where one starts, and the end, are those that the check accepts. */
  lemma {:induction false} StartsAreBoundaries(runes: seq<seq<Byte>>, i: nat)
    requires AllRunes(runes) && i <= |Flatten(runes)|
    ensures Utf8StartsHere(Flatten(runes), i) <==> exists k :: 0 <= k <= |runes| && |Flatten(runes[..k])| == i
    decreases |runes|
  {
    var s := Flatten(runes);
    if i == 0 {
      assert runes[..0] == [] && |Flatten(runes[..0])| == 0;
    } else {
      assert runes[0] in runes && forall r :: r in runes[1..] ==> r in runes;
      var (r, rest) := (runes[0], Flatten(runes[1..]));
      if i < |r| {
        assert s[i] == r[i];
        forall k | 0 <= k <= |runes|
          ensures |Flatten(runes[..k])| != i
        {
          FlattenedFrom(runes, k);
        }
      } else {
        StartsAreBoundaries(runes[1..], i - |r|);
        StartBehind(runes, i);
        BoundaryBehind(runes, i);
      }
    }
  }

  lemma {:induction false} FlattenedFrom(runes: seq<seq<Byte>>, k: nat)
    requires k <= |runes|
    ensures k > 0 ==> Flatten(runes[..k]) == runes[0] + Flatten(runes[1..][..k - 1])
    ensures k == 0 ==> Flatten(runes[..k]) == []
  {
    if k > 0 {
      assert runes[..k][1..] == runes[1..][..k - 1];
    }
  }

  lemma {:induction false} StartBehind(runes: seq<seq<Byte>>, i: nat)
    requires AllRunes(runes) && runes != [] && |runes[0]| <= i <= |Flatten(runes)| && i > 0
    ensures Utf8StartsHere(Flatten(runes), i) <==> Utf8StartsHere(Flatten(runes[1..]), i - |runes[0]|)
  {
    var (s, rest) := (Flatten(runes), Flatten(runes[1..]));
    if i < |s| {
      assert s[i] == rest[i - |runes[0]|];
      if i == |runes[0]| {
        assert runes[1] in runes && rest[0] == runes[1][0];
      }
    }
  }

  lemma {:induction false} BoundaryBehind(runes: seq<seq<Byte>>, i: nat)
    requires runes != [] && |runes[0]| <= i && i > 0
    ensures (exists k :: 0 <= k <= |runes| && |Flatten(runes[..k])| == i) <==>
      exists k :: 0 <= k <= |runes[1..]| && |Flatten(runes[1..][..k])| == i - |runes[0]|
  {
    if k :| 0 <= k <= |runes| && |Flatten(runes[..k])| == i {
      FlattenedFrom(runes, k);
      assert |Flatten(runes[1..][..k - 1])| == i - |runes[0]|;
    }
    if k :| 0 <= k <= |runes[1..]| && |Flatten(runes[1..][..k])| == i - |runes[0]| {
      FlattenedFrom(runes, k + 1);
      assert |Flatten(runes[..k + 1])| == i;
    }
  }

  /** The last start that is not past the limit. */
  ghost predicate IsCut(s: seq<Byte>, cut: nat) {
    && cut <= MAX_LOG_LINE_BYTES < |s| && Utf8StartsHere(s, cut)
    && forall i :: cut < i <= MAX_LOG_LINE_BYTES ==> !Utf8StartsHere(s, i)
  }

  /** A cut of a text of runes keeps whole runes, and gives up less than one rune below the limit. */
  lemma {:induction false} CutKeepsRunes(runes: seq<seq<Byte>>, cut: nat) returns (k: nat)
    requires AllRunes(runes) && IsCut(Flatten(runes), cut)
    ensures k <= |runes| && Flatten(runes)[..cut] == Flatten(runes[..k])
    ensures 16 * 1024 - 3 <= cut <= 16 * 1024
  {
    var s := Flatten(runes);
    StartsAreBoundaries(runes, cut);
    k :| 0 <= k <= |runes| && |Flatten(runes[..k])| == cut;
    FlattenedPrefix(runes, k);
    assert runes[..|runes|] == runes;
    FlattenedNext(runes, k);
    NextBoundary(runes, k + 1);
  }

  lemma {:induction false} FlattenedPrefix(runes: seq<seq<Byte>>, k: nat)
    requires k <= |runes|
    ensures Flatten(runes[..k]) <= Flatten(runes)
  {
    assert runes == runes[..k] + runes[k..];
    FlattenConcat(runes[..k], runes[k..]);
  }

  lemma {:induction false} FlattenedNext(runes: seq<seq<Byte>>, k: nat)
    requires AllRunes(runes) && k < |runes|
    ensures |Flatten(runes[..k])| < |Flatten(runes[..k + 1])| <= |Flatten(runes[..k])| + 4
  {
    assert runes[..k + 1] == runes[..k] + [runes[k]];
    FlattenSnoc(runes[..k], runes[k]);
    assert runes[k] in runes;
  }

  lemma {:induction false} NextBoundary(runes: seq<seq<Byte>>, k: nat)
    requires AllRunes(runes) && k <= |runes|
    ensures |Flatten(runes[..k])| <= |Flatten(runes)| && Utf8StartsHere(Flatten(runes), |Flatten(runes[..k])|)
  {
    assert runes == runes[..k] + runes[k..];
    FlattenConcat(runes[..k], runes[k..]);
    StartsAreBoundaries(runes, |Flatten(runes[..k])|);
  }

  /** Cuts at the last rune boundary that is not past the limit; a line within it is kept whole. What is
      left of a text of runes is the first of them, up to less than a rune below the limit. */
  method TruncateLogLine(s: seq<Byte>, marker: seq<Byte>) returns (r: seq<Byte>)
    ensures |s| <= MAX_LOG_LINE_BYTES ==> r == s
    ensures |s| > MAX_LOG_LINE_BYTES ==> exists cut: nat :: IsCut(s, cut) && r == s[..cut] + marker
    ensures |s| > 16 * 1024 ==> forall runes: seq<seq<Byte>> :: AllRunes(runes) && Flatten(runes) == s ==>
      exists k :: 0 <= k <= |runes| && r == Flatten(runes[..k]) + marker && 16 * 1024 - 3 <= |Flatten(runes[..k])| <= 16 * 1024
  {
    if |s| <= MAX_LOG_LINE_BYTES {
      return s;
    }
    var cut := MAX_LOG_LINE_BYTES;
    while cut > 0 && !Utf8StartsHere(s, cut)
      invariant 0 <= cut <= MAX_LOG_LINE_BYTES
      invariant forall i :: cut < i <= MAX_LOG_LINE_BYTES ==> !Utf8StartsHere(s, i)
    {
      cut := cut - 1;
    }
    r := s[..cut] + marker;
    forall runes: seq<seq<Byte>> | AllRunes(runes) && Flatten(runes) == s
      ensures exists k ::
        0 <= k <= |runes| && r == Flatten(runes[..k]) + marker && 16 * 1024 - 3 <= |Flatten(runes[..k])| <= 16 * 1024
    {
      var k := CutKeepsRunes(runes, cut);
    }
  }
}
