/** What the producer/consumer program promises over whole runs: for every
    schedule, every number of producers and every item count. */
module SyncThreadRuns {
  import opened Counting
  import opened SyncThread

  /** An access outside `buff` is undefined behaviour: after it anything may follow. */
  predicate Next(s: State, a: Action, s': State) {
    Enabled(s, a) && (InBounds(s) ==> s' == Step(s, a))
  }

  /** `states` is a run of the program under the schedule `acts`. */
  predicate IsRun(states: seq<State>, acts: seq<Action>) {
    && |states| == |acts| + 1
    && forall k :: 0 <= k < |acts| ==> Next(states[k], acts[k], states[k + 1])
  }

  ghost predicate RunOf(items: int, threads: int, states: seq<State>, acts: seq<Action>) {
    IsRun(states, acts) && Init(states[0], items, threads)
  }

  lemma {:induction false} RunInv(items: int, threads: int, states: seq<State>, acts: seq<Action>, k: nat)
    requires RunOf(items, threads, states, acts) && k < |states|
    ensures Inv(states[k])
    ensures states[k].nitems == Min(items, MAXNITEMS)
    ensures |states[k].producers| == Max(0, Min(threads, MAXNTHREADS))
  {
    if k == 0 {
      InitInv(states[0], items, threads);
    } else {
      RunInv(items, threads, states, acts, k - 1);
      assert Next(states[k - 1], acts[k - 1], states[k]);
      StepInv(states[k - 1], acts[k - 1]);
      StepKeepsParameters(states[k - 1], acts[k - 1]);
    }
  }

  lemma StepKeepsParameters(s: State, a: Action)
    requires InBounds(s) && Enabled(s, a)
    ensures Step(s, a).nitems == s.nitems && |Step(s, a).producers| == |s.producers|
  {
  }

  // ----- the unlocked read -----

  /** A slot below `nput` is written once and for all. */
  predicate SlotsKept(s: State, s': State) {
    && 0 <= s.nput <= s'.nput && s.nput <= |s.buff| && s.nput <= |s'.buff|
    && forall k :: 0 <= k < s.nput ==> s'.buff[k] == s.buff[k]
  }

  lemma ProducerKeepsSlots(s: State, p: nat)
    requires BufferInv(s) && InBounds(s) && ProducerCanRun(s, p)
    ensures SlotsKept(s, ProducerStep(s, p))
  {
  }

  lemma StepKeepsSlots(s: State, a: Action)
    requires Inv(s) && Enabled(s, a)
    ensures InBounds(s) && SlotsKept(s, Step(s, a))
  {
    InvInBounds(s);
    if a.Run? && a.t.Producing? {
      ProducerKeepsSlots(s, a.t.p);
    }
  }

  lemma {:induction false} RunKeepsSlots(
    items: int, threads: int, states: seq<State>, acts: seq<Action>, j: nat, k: nat)
    requires RunOf(items, threads, states, acts) && j <= k < |states|
    ensures Inv(states[j]) && Inv(states[k]) && SlotsKept(states[j], states[k])
    decreases k - j
  {
    RunInv(items, threads, states, acts, j);
    RunInv(items, threads, states, acts, k);
    if j < k {
      hide Inv, Enabled, Step, SlotsKept;
      RunKeepsSlots(items, threads, states, acts, j, k - 1);
      assert Next(states[k - 1], acts[k - 1], states[k]);
      StepKeepsSlots(states[k - 1], acts[k - 1]);
      KeptTwice(states[j], states[k - 1], states[k]);
    }
  }

  lemma KeptTwice(s: State, t: State, u: State)
    requires SlotsKept(s, t) && SlotsKept(t, u)
    ensures SlotsKept(s, u)
  {
  }

  /** When the consumer is about to read `buff[i]`, without a lock and although
      producers may announce out of order, the slot already holds `i`, and no
      later step of the run writes it. Hence the mismatch message is never printed. */
  lemma ConsumerReadsWrittenSlot(
    items: int, threads: int, states: seq<State>, acts: seq<Action>, j: nat, k: nat)
    requires RunOf(items, threads, states, acts) && j <= k < |states|
    ensures states[k].consumer.mismatches == 0
    ensures InBounds(states[k])
    ensures states[j].consumer.pc == Read ==>
              var i := states[j].consumer.i;
              && 0 <= i < states[j].nput && i < |states[j].buff| && i < |states[k].buff|
              && states[j].buff[i] == i && states[k].buff[i] == i
  {
    RunKeepsSlots(items, threads, states, acts, j, k);
    InvInBounds(states[k]);
    UnannouncedNonneg(states[j].producers);
  }

  /** Two threads are never inside the critical sections of one mutex. */
  lemma MutualExclusion(items: int, threads: int, states: seq<State>, acts: seq<Action>, k: nat, p: nat, q: nat)
    requires RunOf(items, threads, states, acts) && k < |states|
    requires p < q < |states[k].producers|
    ensures var ps := states[k].producers;
            && !(InPut(ps[p].pc) && InPut(ps[q].pc))
            && !(InReady(ps[p].pc) && InReady(ps[q].pc))
            && !(InReady(ps[p].pc) && InWait(states[k].consumer.pc))
  {
    RunInv(items, threads, states, acts, k);
  }

  /** The counting argument across the two locks. */
  lemma Conservation(items: int, threads: int, states: seq<State>, acts: seq<Action>, k: nat)
    requires RunOf(items, threads, states, acts) && k < |states|
    ensures var s := states[k];
            && Taken(s.consumer) + s.nready + SumBy(s.producers, Unannounced) == s.nput
            && SumBy(s.producers, Produced) == s.nput
            && (s.putMutex == Free ==> s.nval == s.nput)
            && 0 <= s.nready && 0 <= s.nput <= Max(0, Min(items, MAXNITEMS))
  {
    RunInv(items, threads, states, acts, k);
  }

  // ----- no lost wakeup, no deadlock -----

  lemma NoLostWakeup(items: int, threads: int, states: seq<State>, acts: seq<Action>, k: nat)
    requires RunOf(items, threads, states, acts) && k < |states|
    requires states[k].consumer.pc == Asleep
    ensures states[k].nready == 0
    ensures forall p :: 0 <= p < |states[k].producers| ==> states[k].producers[p].pc != IncReady
  {
    RunInv(items, threads, states, acts, k);
  }

  /** Threads wait for nothing but a mutex somebody holds, a signal, or the end of the
      thread they join. */
  lemma BlockedOnlyBy(s: State, p: nat)
    ensures p < |s.producers| && !CanRun(s, Producing(p)) ==>
              || s.producers[p].pc in {NotCreated, Returned}
              || (s.producers[p].pc == LockPut && s.putMutex != Free)
              || (s.producers[p].pc == LockReady && s.readyMutex != Free)
    ensures !CanRun(s, Consuming) ==>
              || s.consumer.pc in {Unborn, Ended, Asleep}
              || (s.consumer.pc in {Lock, Woken} && s.readyMutex != Free)
    ensures !CanRun(s, Main) ==>
              || s.main == Exited || (s.main == JoinConsumer && s.consumer.pc != Ended)
              || (s.main.Join? && s.main.k < |s.producers| && s.producers[s.main.k].pc != Returned)
    ensures s.consumer.pc == Asleep ==> Enabled(s, SpuriousWakeup)
  {
  }

  /** The loop around the wait makes a spurious wakeup harmless: the consumer tests again
      and is back asleep, with nothing changed. */
  lemma SpuriousWakeupHarmless(s: State)
    requires Inv(s) && s.consumer.pc == Asleep && s.readyMutex == Free
    ensures Enabled(s, SpuriousWakeup)
    ensures var t := Step(s, SpuriousWakeup);
            && ConsumerCanRun(t) && t.consumer.pc != Read
            && ConsumerCanRun(ConsumerStep(t)) && ConsumerStep(t).consumer.pc == TestWait
            && ConsumerStep(ConsumerStep(t)) == s
  {
  }

  /** The test before the signal is exact: the consumer is woken just when it sleeps and
      nothing was ready. It costs no wakeup, for a sleeping consumer means that nothing
      is. */
  lemma SignalTestExact(s: State, p: nat)
    requires InBounds(s) && ProducerCanRun(s, p) && s.producers[p].pc == TestReady
    ensures ProducerStep(s, p).consumer != s.consumer <==> s.consumer.pc == Asleep && s.nready == 0
    ensures Inv(s) ==> ProducerStep(s, p).consumer == Signal(s.consumer)
  {
  }

  /** Any wrong value at the read would be reported, and nothing else is. */
  lemma MismatchExact(s: State)
    requires InBounds(s) && s.consumer.pc == Read
    ensures var mismatches := ConsumerStep(s).consumer.mismatches;
            mismatches == s.consumer.mismatches + if s.buff[s.consumer.i] == s.consumer.i then 0 else 1
  {
  }

  /** No thread can move (a spurious wakeup does not count as help). */
  ghost predicate Stuck(s: State) {
    forall t :: !CanRun(s, t)
  }

  /** While a mutex is held its holder can run; when both are free so can every
      producer that was created and has not returned. */
  lemma ProducerAlive(s: State, p: nat)
    requires MutexInv(s) && p < |s.producers| && s.producers[p].pc !in {NotCreated, Returned}
    ensures exists t :: CanRun(s, t)
  {
    if ProducerCanRun(s, p) {
      assert CanRun(s, Producing(p));
    } else {
      var m := if s.producers[p].pc == LockPut then s.putMutex else s.readyMutex;
      if m.HeldByProducer? {
        if ProducerCanRun(s, m.p) {
          assert CanRun(s, Producing(m.p));
        } else {
          // m.p holds the put mutex and waits for nothing: every statement inside is enabled
          assert false;
        }
      } else {
        assert CanRun(s, Consuming);
      }
    }
  }

  lemma ConsumerAlive(s: State)
    requires Inv(s) && s.main == JoinConsumer && s.consumer.pc != Ended
    requires |s.producers| > 0 || s.nitems <= 0
    ensures CanRun(s, Consuming)
  {
    assert forall p :: 0 <= p < |s.producers| ==> s.producers[p].pc == Returned;
    SumByConstant(s.producers, Unannounced, 0);
    if |s.producers| > 0 {
      assert s.producers[0].pc == Returned;
    }
  }

  /** Deadlock freedom: with a producer, or with nothing to produce, every state
      before main's return has a thread that can run. */
  lemma NoDeadlock(s: State)
    requires Inv(s) && s.main != Exited
    requires |s.producers| > 0 || s.nitems <= 0
    ensures !Stuck(s)
  {
    if MainCanRun(s) {
      assert CanRun(s, Main);
    } else if s.main.Join? {
      ProducerAlive(s, s.main.k);
    } else {
      ConsumerAlive(s);
      assert CanRun(s, Consuming);
    }
  }

  ghost predicate CanDeadlock(items: int, threads: int) {
    exists states: seq<State>, acts: seq<Action> ::
      && RunOf(items, threads, states, acts)
      && states[|acts|].main != Exited && Stuck(states[|acts|])
  }

  function InitialState(items: int, threads: int): State {
    State(Min(items, MAXNITEMS), seq(MAXNITEMS, _ => 0), 0, 0, Free, 0, Free,
          seq(Max(0, Min(threads, MAXNTHREADS)), _ => Producer(NotCreated, 0)),
          Consumer(Unborn, 0, 0), Create(0), [])
  }

  /** The schedule that strands the consumer when nobody produces. */
  lemma DeadlockWithoutProducers(items: int, threads: int)
    requires threads <= 0 < items
    ensures CanDeadlock(items, threads)
  {
    var s0 := InitialState(items, threads);
    var s1 := s0.(main := CreateConsumer);
    var s2 := s1.(consumer := Consumer(TestLoop, 0, 0), main := Join(0));
    var s3 := s2.(main := JoinConsumer);
    var s4 := s3.(consumer := Consumer(Lock, 0, 0));
    var s5 := s4.(consumer := Consumer(TestWait, 0, 0), readyMutex := HeldByConsumer);
    var s6 := s5.(consumer := Consumer(Asleep, 0, 0), readyMutex := Free);
    var states := [s0, s1, s2, s3, s4, s5, s6];
    var acts := [Run(Main), Run(Main), Run(Main), Run(Consuming), Run(Consuming), Run(Consuming)];
    assert IsRun(states, acts);
    assert Stuck(s6);
    assert RunOf(items, threads, states, acts) && states[|acts|] == s6;
  }

  /** The program can deadlock exactly when it is started without producers and
      with something to consume. */
  lemma DeadlockIffNoProducers(items: int, threads: int)
    ensures CanDeadlock(items, threads) <==> threads <= 0 < items
  {
    if CanDeadlock(items, threads) {
      var states: seq<State>, acts: seq<Action> :|
        && RunOf(items, threads, states, acts)
        && states[|acts|].main != Exited && Stuck(states[|acts|]);
      RunInv(items, threads, states, acts, |acts|);
      if !(threads <= 0 < items) {
        NoDeadlock(states[|acts|]);
      }
    }
    if threads <= 0 < items {
      DeadlockWithoutProducers(items, threads);
    }
  }

  // ----- termination -----

  function ProducerRank(p: Producer): int {
    match p.pc
    case NotCreated => 7
    case LockPut => 6
    case TestFull => 5
    case Store => 4
    case IncNput => 3
    case UnlockFull => 1
    case Returned => 0
    case IncNval => 16
    case UnlockPut => 15
    case LockReady => 14
    case TestReady => 13
    case IncReady => 10
    case UnlockReady => 9
    case IncCount => 8
  }

  function ConsumerRank(c: Consumer): int {
    match c.pc
    case Unborn => 9
    case TestLoop => 8
    case Lock => 7
    case Woken => 7
    case TestWait => 6
    case Asleep => 5
    case DecReady => 4
    case Unlock => 3
    case Read => 2
    case Ended => 0
  }

  function MainRank(s: State): int {
    match s.main
    case Create(k) => 2 * |s.producers| - k + 4
    case CreateConsumer => |s.producers| + 3
    case Join(k) => |s.producers| - k + 2
    case JoinConsumer => 1
    case Exited => 0
  }

  /** An upper bound on the steps still to come. */
  function Measure(s: State): int {
    14 * (Target(s) - s.nput) + SumBy(s.producers, ProducerRank)
    + 8 * (Target(s) - s.consumer.i) + ConsumerRank(s.consumer) + MainRank(s)
  }

  lemma MeasureNonneg(s: State)
    requires Inv(s)
    ensures Measure(s) >= 0
  {
    SumByNonneg(s.producers, ProducerRank);
  }

  lemma ProducerPays(s: State, p: nat)
    requires InBounds(s) && ProducerCanRun(s, p)
    ensures Measure(ProducerStep(s, p)) < Measure(s)
  {
    var s' := ProducerStep(s, p);
    ProducerRankStep(s, p);
    SumByUpdate(s.producers, p, s'.producers[p], ProducerRank);
  }

  lemma ProducerRankStep(s: State, p: nat)
    requires InBounds(s) && ProducerCanRun(s, p)
    ensures var s' := ProducerStep(s, p);
            && s'.producers == s.producers[p := s'.producers[p]]
            && s'.nitems == s.nitems && s'.consumer.i == s.consumer.i && MainRank(s') == MainRank(s)
            && ProducerRank(s'.producers[p]) - 14 * (s'.nput - s.nput) + ConsumerRank(s'.consumer)
               < ProducerRank(s.producers[p]) + ConsumerRank(s.consumer)
  {
  }

  lemma MainPays(s: State)
    requires Inv(s) && MainCanRun(s)
    ensures Measure(MainStep(s)) < Measure(s)
  {
    if s.main.Create? && s.main.k < |s.producers| {
      SumByUpdate(s.producers, s.main.k, Producer(LockPut, 0), ProducerRank);
    }
  }

  lemma MeasureDecreases(s: State, a: Action)
    requires Inv(s) && Enabled(s, a)
    ensures InBounds(s)
    ensures Measure(Step(s, a)) <= Measure(s) + if a == SpuriousWakeup then 2 else -1
  {
    InvInBounds(s);
    match a
    case Run(Producing(p)) => ProducerPays(s, p);
    case Run(Main) => MainPays(s);
    case _ =>
  }

  function Spurious(acts: seq<Action>): nat {
    if acts == [] then 0
    else Spurious(acts[..|acts| - 1]) + if acts[|acts| - 1] == SpuriousWakeup then 1 else 0
  }

  lemma {:induction false} RunPaysForItsLength(
    items: int, threads: int, states: seq<State>, acts: seq<Action>, k: nat)
    requires RunOf(items, threads, states, acts) && k <= |acts|
    ensures Inv(states[0]) && Inv(states[k])
    ensures Measure(states[k]) + k <= Measure(states[0]) + 3 * Spurious(acts[..k])
  {
    hide Inv, Enabled, Step, Measure;
    RunInv(items, threads, states, acts, 0);
    RunInv(items, threads, states, acts, k);
    if k > 0 {
      RunPaysForItsLength(items, threads, states, acts, k - 1);
      assert Next(states[k - 1], acts[k - 1], states[k]);
      MeasureDecreases(states[k - 1], acts[k - 1]);
      assert acts[..k][..k - 1] == acts[..k - 1];
    }
  }

  /** Every run terminates: it is at most linear in items and threads, plus three
      steps for each spurious wakeup. */
  lemma RunLengthBound(items: int, threads: int, states: seq<State>, acts: seq<Action>)
    requires RunOf(items, threads, states, acts)
    ensures var n, t := Max(0, Min(items, MAXNITEMS)), Max(0, Min(threads, MAXNTHREADS));
            |acts| <= 22 * n + 9 * t + 13 + 3 * Spurious(acts)
  {
    var s := states[0];
    SumByConstant(s.producers, ProducerRank, 7);
    RunPaysForItsLength(items, threads, states, acts, |acts|);
    MeasureNonneg(states[|acts|]);
    assert acts[..|acts|] == acts;
  }

  function Sum(xs: seq<int>): int {
    SumBy(xs, (x: int) => x)
  }

  lemma {:induction false} SumOfJoined(ps: seq<Producer>, counts: seq<int>)
    requires |ps| == |counts|
    requires forall p :: 0 <= p < |ps| ==> ps[p].pc == Returned && counts[p] == ps[p].count
    ensures SumBy(ps, Produced) == Sum(counts)
  {
    if ps != [] {
      SumOfJoined(ps[1..], counts[1..]);
    }
  }

  /** The outcome of every complete run: a run that cannot go on, started with a
      producer or with nothing to do, has returned from main; the counts main
      printed add up to the number of items, all of them were taken in order, and
      the buffer holds exactly 0, 1, 2, ... */
  lemma CompleteRunDeliversAll(items: int, threads: int, states: seq<State>, acts: seq<Action>)
    requires RunOf(items, threads, states, acts)
    requires Stuck(states[|acts|])
    requires threads > 0 || items <= 0
    ensures var s, n := states[|acts|], Max(0, Min(items, MAXNITEMS));
            && s.main == Exited
            && |s.printed| == |s.producers| && Sum(s.printed) == n
            && s.consumer.pc == Ended && s.consumer.i == n && s.consumer.mismatches == 0
            && s.nready == 0 && s.nput == n && |s.buff| == MAXNITEMS
            && forall k :: 0 <= k < n ==> s.buff[k] == k
  {
    var s := states[|acts|];
    RunInv(items, threads, states, acts, |acts|);
    if s.main != Exited {
      NoDeadlock(s);
    }
    SumOfJoined(s.producers, s.printed);
    SumByConstant(s.producers, Unannounced, 0);
    if |s.producers| > 0 {
      assert s.producers[0].pc == Returned;
    } else {
      assert s.producers == [];
    }
  }
}
