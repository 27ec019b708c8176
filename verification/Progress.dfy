/** The progress protocol that an export and a restore follow: the operation's goroutine emits its
    stages, a ticker goroutine repeats the last stage while bytes flow, and one terminal chunk ends
    the run. Both goroutines emit through the same unlocked callback, which first appends the chunk
    to the buffered output and then sends it live. */
module Progress {

  datatype Phase =
    | Dumping | Uploading
    | Preparing | Downloading | Restoring
    | Completed | Failed

  const EXPORT_STAGES: seq<Phase> := [Dumping, Uploading]
  const RESTORE_STAGES: seq<Phase> := [Preparing, Downloading, Restoring]

  function Repeat<T>(x: T, n: nat): (r: seq<T>)
    ensures |r| == n && forall k :: 0 <= k < n ==> r[k] == x
  {
    seq(n, _ => x)
  }

  /** What a finished run has emitted: nothing, if its arguments did not parse; or some but not all
      stages and a failure; or all stages, the last one repeated, and one terminal chunk. */
  ghost predicate Finished(stages: seq<Phase>, chunks: seq<Phase>, ok: bool)
    requires stages != []
  {
    || (!ok && chunks == [])
    || (!ok && exists i: nat :: i < |stages| && chunks == stages[..i] + [Failed])
    || exists k: nat :: chunks == Ticked(stages, k) + [if ok then Completed else Failed]
  }

  /** All stages, and the last of them `k` times more. */
  function Ticked(stages: seq<Phase>, k: nat): (r: seq<Phase>)
    requires stages != []
    ensures |r| == |stages| + k
  {
    stages + Repeat(stages[|stages| - 1], k)
  }

  lemma {:induction false} TickedMore(stages: seq<Phase>, k: nat)
    requires stages != []
    ensures Ticked(stages, k) + [stages[|stages| - 1]] == Ticked(stages, k + 1)
  {
  }

  // ---------- the two goroutines ----------

  /** Where a goroutine is inside the emit callback. */
  datatype Emission = Buffering(chunk: Phase) | Sending(chunk: Phase)

  datatype Main =
    | AtStage(i: nat)             // about to run the checks before stage i
    | EmittingStage(i: nat, e: Emission)
    | Launching                   // all stages emitted, ticker not started yet
    | Pumping                     // bytes flow, ticker runs
    | Joining                     // ticker cancelled, waiting for it to exit
    | Joined
    | EmittingEnd(e: Emission)
    | Returned(ok: bool)

  datatype Ticker = Absent | Idle | Ticking(e: Emission) | Exited

  datatype State = State(main: Main, ticker: Ticker, buffered: seq<Phase>, live: seq<Phase>)

  const START := State(AtStage(0), Absent, [], [])

  /** One step of the operation's own goroutine. */
  ghost predicate MainStep(stages: seq<Phase>, s: State, t: State) {
    match s.main
    case AtStage(i) =>
      || (i == 0 && t == s.(main := Returned(false)))
      || t == s.(main := EmittingEnd(Buffering(Failed)))
      || (i < |stages| && t == s.(main := EmittingStage(i, Buffering(stages[i]))))
    case EmittingStage(i, Buffering(c)) =>
      t == s.(main := EmittingStage(i, Sending(c)), buffered := s.buffered + [c])
    case EmittingStage(i, Sending(c)) =>
      t == s.(main := if i + 1 < |stages| then AtStage(i + 1) else Launching, live := s.live + [c])
    case Launching => t == s.(main := Pumping, ticker := Idle)
    case Pumping => t == s.(main := Joining)
    case Joining => s.ticker.Exited? && t == s.(main := Joined)
    case Joined =>
      || t == s.(main := EmittingEnd(Buffering(Completed)))
      || t == s.(main := EmittingEnd(Buffering(Failed)))
    case EmittingEnd(Buffering(c)) =>
      t == s.(main := EmittingEnd(Sending(c)), buffered := s.buffered + [c])
    case EmittingEnd(Sending(c)) =>
      t == s.(main := Returned(c == Completed), live := s.live + [c])
    case Returned(_) => false
  }

  /** One step of the ticker. When its timer has fired and it has been cancelled too, select may
      pick either; a cancelled outer context may end it at any time. */
  ghost predicate TickerStep(stages: seq<Phase>, s: State, t: State)
    requires stages != []
  {
    match s.ticker
    case Absent => false
    case Idle =>
      || t == s.(ticker := Ticking(Buffering(stages[|stages| - 1])))
      || t == s.(ticker := Exited)
    case Ticking(Buffering(c)) => t == s.(ticker := Ticking(Sending(c)), buffered := s.buffered + [c])
    case Ticking(Sending(c)) => t == s.(ticker := Idle, live := s.live + [c])
    case Exited => false
  }

  ghost predicate Next(stages: seq<Phase>, s: State, t: State)
    requires stages != []
  {
    MainStep(stages, s, t) || TickerStep(stages, s, t)
  }

  ghost predicate Run(stages: seq<Phase>, states: seq<State>)
    requires stages != []
  {
    && states != [] && states[0] == START
    && forall k :: 0 <= k < |states| - 1 ==> Next(stages, states[k], states[k + 1])
  }

  // ---------- the invariant ----------

  /** The chunk that is in the buffer already but not sent yet. */
  function Pending(s: State): seq<Phase> {
    match (s.main, s.ticker)
    case (EmittingStage(_, Sending(c)), _) => [c]
    case (EmittingEnd(Sending(c)), _) => [c]
    case (_, Ticking(Sending(c))) => [c]
    case _ => []
  }

  predicate MainEmits(s: State) {
    s.main.EmittingStage? || s.main.EmittingEnd?
  }

  ghost predicate Invariant(stages: seq<Phase>, s: State)
    requires stages != []
  {
    && s.buffered == s.live + Pending(s)
    && (s.ticker.Ticking? ==> s.ticker.e.chunk == stages[|stages| - 1])
    && (s.ticker.Ticking? || s.ticker.Idle? ==> s.main.Pumping? || s.main.Joining?)
    && (s.ticker.Exited? ==> !s.main.AtStage? && !s.main.EmittingStage? && !s.main.Launching?)
    && match s.main
       case AtStage(i) => s.ticker.Absent? && i < |stages| && s.live == stages[..i]
       case EmittingStage(i, e) =>
         s.ticker.Absent? && i < |stages| && e.chunk == stages[i] && s.live == stages[..i]
       case Launching => s.ticker.Absent? && s.live == stages
       case Pumping => exists k: nat :: s.live == Ticked(stages, k)
       case Joining => exists k: nat :: s.live == Ticked(stages, k)
       case Joined => exists k: nat :: s.live == Ticked(stages, k)
       case EmittingEnd(e) => e.chunk in {Completed, Failed} && Finished(stages, s.live + [e.chunk], e.chunk == Completed)
       case Returned(ok) => Finished(stages, s.live, ok)
  }

  lemma {:induction false} StartHolds(stages: seq<Phase>)
    requires stages != []
    ensures Invariant(stages, START)
  {
  }

  lemma {:induction false} MainKeeps(stages: seq<Phase>, s: State, t: State)
    requires stages != [] && Invariant(stages, s) && MainStep(stages, s, t)
    ensures Invariant(stages, t)
  {
    match s.main
    case EmittingStage(i, Sending(c)) =>
      assert stages[..i] + [stages[i]] == stages[..i + 1];
      assert stages[..|stages|] == stages;
    case Launching =>
      assert Ticked(stages, 0) == stages;
    case _ =>
  }

  lemma {:induction false} TickerKeeps(stages: seq<Phase>, s: State, t: State)
    requires stages != [] && Invariant(stages, s) && TickerStep(stages, s, t)
    ensures Invariant(stages, t)
  {
    if s.ticker.Ticking? && s.ticker.e.Sending? {
      var k: nat :| s.live == Ticked(stages, k);
      TickedMore(stages, k);
    }
  }

  /** Over every interleaving: the goroutines are never inside the callback together, the buffer is
      ahead of the live stream by at most the chunk being emitted, and a run that has returned has
      emitted a well-formed trace. On success the buffered output is what was sent live. */
  lemma {:induction false} ProtocolHolds(stages: seq<Phase>, states: seq<State>, n: nat)
    requires stages != [] && Run(stages, states) && n < |states|
    ensures Invariant(stages, states[n])
    ensures !(MainEmits(states[n]) && states[n].ticker.Ticking?)
    ensures states[n].main.Returned? ==>
      && states[n].buffered == states[n].live
      && Finished(stages, states[n].live, states[n].main.ok)
  {
    if n == 0 {
      StartHolds(stages);
    } else {
      ProtocolHolds(stages, states, n - 1);
      assert Next(stages, states[n - 1], states[n - 1 + 1]);
      if MainStep(stages, states[n - 1], states[n]) {
        MainKeeps(stages, states[n - 1], states[n]);
      } else {
        TickerKeeps(stages, states[n - 1], states[n]);
      }
    }
  }

  /** Nothing is emitted after the terminal chunk: once the main goroutine has returned, no step of
      either goroutine is possible. */
  lemma {:induction false} NothingAfterReturn(stages: seq<Phase>, states: seq<State>, n: nat)
    requires stages != [] && Run(stages, states) && n < |states| - 1
    ensures !states[n].main.Returned?
  {
    ProtocolHolds(stages, states, n);
    assert Next(stages, states[n], states[n + 1]);
  }

  /** A finished trace holds at most one terminal chunk, and it is the last one. */
  lemma {:induction false} OneTerminal(stages: seq<Phase>, chunks: seq<Phase>, ok: bool, i: nat)
    requires stages != [] && Completed !in stages && Failed !in stages
    requires Finished(stages, chunks, ok) && i < |chunks|
    ensures chunks[i] in {Completed, Failed} <==> i == |chunks| - 1
    ensures ok <==> chunks[|chunks| - 1] == Completed
  {
    var last := stages[|stages| - 1];
    assert last in stages;
    if j: nat :| !ok && j < |stages| && chunks == stages[..j] + [Failed] {
      assert i < j ==> chunks[i] == stages[i] && stages[i] in stages;
    } else {
      var k: nat :| chunks == Ticked(stages, k) + [if ok then Completed else Failed];
      assert i < |stages| ==> chunks[i] == stages[i] && stages[i] in stages;
      assert |stages| <= i < |stages| + k ==> chunks[i] == last;
    }
  }

  // ---------- the same callback, called from one goroutine at a time ----------

  /** The callback's effect, at the grain of whole chunks: `ProtocolHolds` shows that emissions never
      overlap. */
  class Emitter {
    var chunks: seq<Phase>

    constructor ()
      ensures chunks == []
    {
      chunks := [];
    }

    method Emit(p: Phase)
      modifies this
      ensures chunks == old(chunks) + [p]
    {
      chunks := chunks + [p];
    }

    /** Any number of ticks from the ticker goroutine. */
    method Ticks(stages: seq<Phase>, ghost k0: nat) returns (ghost k: nat)
      requires stages != [] && chunks == Ticked(stages, k0)
      modifies this
      ensures chunks == Ticked(stages, k)
    {
      k := k0;
      var n: nat := *;
      while n > 0
        invariant chunks == Ticked(stages, k)
      {
        TickedMore(stages, k);
        Emit(stages[|stages| - 1]);
        k := k + 1;
        n := n - 1;
      }
    }
  }
}
