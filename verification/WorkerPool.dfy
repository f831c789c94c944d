/** The thread pool of HW7/TCP_Server/server.c: main offers items, workers wait on
    queue_cond for a non-empty queue. Every lock, unlock, wait, wakeup and critical
    section is one step. */
module WorkerPool {
  import opened Counting
  import opened WorkQueue

  datatype Owner = Nobody | MainThread | Worker(w: nat)

  /** `Asleep` is in pthread_cond_wait; `Woken` is in it too and wants the mutex back. */
  datatype WorkerPc = Locking | Testing | Asleep | Woken | Unlocking(item: Item) | Processing(item: Item)

  datatype MainPc = Idle | LockFor(item: Item) | Enqueue(item: Item) | Release

  /** History: what was accepted, taken from the queue, processed to the end, and skipped
      because its session had gone. */
  datatype State = State(
    ring: Ring, mutex: Owner, main: MainPc, workers: seq<WorkerPc>,
    offered: nat, dropped: nat, accepted: seq<Item>, taken: seq<Item>, processed: seq<Item>, skipped: seq<Item>)

  /** `wake` is the sleeper pthread_cond_signal picks, if there is one; `active` says
      whether the session of the item in hand still is. */
  datatype Action =
    | Offer(item: Item) | MainLock | MainEnqueue(wake: nat) | MainUnlock
    | Work(w: nat, active: bool) | SpuriousWakeup(w: nat)

  ghost predicate Init(s: State, n: nat) {
    && ValidRing(s.ring) && s.ring.front == 0 && s.ring.count == 0
    && s.mutex == Nobody && s.main == Idle
    && s.workers == seq(n, _ => Locking)
    && s.offered == 0 && s.dropped == 0 && s.accepted == [] && s.taken == [] && s.processed == [] && s.skipped == []
  }

  predicate IsAsleep(s: State, w: nat) {
    w < |s.workers| && s.workers[w] == Asleep
  }

  predicate AnyAsleep(s: State) {
    exists w :: 0 <= w < |s.workers| && s.workers[w] == Asleep
  }

  predicate WorkerCanRun(s: State, w: nat) {
    w < |s.workers| &&
    match s.workers[w]
    case Asleep => false
    case Locking => s.mutex == Nobody
    case Woken => s.mutex == Nobody
    case _ => true
  }

  predicate Enabled(s: State, a: Action) {
    match a
    case Offer(_) => s.main == Idle
    case MainLock => s.main.LockFor? && s.mutex == Nobody
    case MainEnqueue(wake) => s.main.Enqueue? && (AnyAsleep(s) ==> IsAsleep(s, wake))
    case MainUnlock => s.main == Release
    case Work(w, _) => WorkerCanRun(s, w)
    case SpuriousWakeup(w) => IsAsleep(s, w)
  }

  function EnqueueStep(s: State, item: Item, wake: nat): State
    requires ValidRing(s.ring)
  {
    if s.ring.count < QUEUE_SIZE then
      s.(ring := Put(s.ring, item), accepted := s.accepted + [Stored(item)], offered := s.offered + 1,
         workers := if IsAsleep(s, wake) then s.workers[wake := Woken] else s.workers, main := Release)
    else
      s.(offered := s.offered + 1, dropped := s.dropped + 1, main := Release)
  }

  function WorkerStep(s: State, w: nat, active: bool): State
    requires ValidRing(s.ring) && WorkerCanRun(s, w)
  {
    match s.workers[w]
    case Locking => s.(workers := s.workers[w := Testing], mutex := Worker(w))
    case Woken => s.(workers := s.workers[w := Testing], mutex := Worker(w))
    case Testing =>
      if s.ring.count == 0
      then s.(workers := s.workers[w := Asleep], mutex := Nobody)
      else
        var item := Oldest(s.ring);
        s.(workers := s.workers[w := Unlocking(item)], ring := Take(s.ring), taken := s.taken + [item])
    case Unlocking(item) => s.(workers := s.workers[w := Processing(item)], mutex := Nobody)
    case Processing(item) =>
      if active then s.(workers := s.workers[w := Locking], processed := s.processed + [item])
      else s.(workers := s.workers[w := Locking], skipped := s.skipped + [item])
  }

  function Step(s: State, a: Action): State
    requires ValidRing(s.ring) && Enabled(s, a)
  {
    match a
    case Offer(item) => s.(main := LockFor(item))
    case MainLock => s.(main := Enqueue(s.main.item), mutex := MainThread)
    case MainEnqueue(wake) => EnqueueStep(s, s.main.item, wake)
    case MainUnlock => s.(main := Idle, mutex := Nobody)
    case Work(w, active) => WorkerStep(s, w, active)
    case SpuriousWakeup(w) => s.(workers := s.workers[w := Woken])
  }

  // ----- the inductive invariant -----

  /** 1 for a worker that will test the queue before it can sleep again and without
      processing an item first. */
  function Inbound(p: WorkerPc): int {
    if p in {Locking, Testing, Woken} then 1 else 0
  }

  predicate InSection(p: WorkerPc) {
    p == Testing || p.Unlocking?
  }

  predicate MutexInv(s: State) {
    && (s.mutex.Worker? ==> s.mutex.w < |s.workers|)
    && (forall w :: 0 <= w < |s.workers| ==> (InSection(s.workers[w]) <==> s.mutex == Worker(w)))
    && (s.main.Enqueue? || s.main == Release <==> s.mutex == MainThread)
  }

  /** No stranded work: while somebody sleeps, every queued item has a worker of its
      own that is woken or on its way to the test. */
  predicate WakeInv(s: State) {
    AnyAsleep(s) ==> s.ring.count <= SumBy(s.workers, Inbound)
  }

  /** How often `x` occurs. */
  function Times(items: seq<Item>, x: Item): nat {
    if items == [] then 0
    else Times(items[..|items| - 1], x) + if items[|items| - 1] == x then 1 else 0
  }

  predicate InHand(p: WorkerPc, x: Item) {
    (p.Unlocking? || p.Processing?) && p.item == x
  }

  /** How many workers hold `x`. */
  function Held(ps: seq<WorkerPc>, x: Item): nat {
    if ps == [] then 0 else (if InHand(ps[0], x) then 1 else 0) + Held(ps[1..], x)
  }

  /** How often a worker was done with `x`, one way or the other. */
  function Finished(s: State, x: Item): nat {
    Times(s.processed, x) + Times(s.skipped, x)
  }

  /** Every taken item is with one worker, processed or skipped. */
  ghost predicate HandsInv(s: State) {
    forall x :: Times(s.taken, x) == Finished(s, x) + Held(s.workers, x)
  }

  ghost predicate FlowInv(s: State) {
    && ValidRing(s.ring)
    && s.accepted == s.taken + Contents(s.ring)
    && s.offered == |s.accepted| + s.dropped
  }

  ghost predicate Inv(s: State) {
    MutexInv(s) && WakeInv(s) && FlowInv(s) && HandsInv(s)
  }

  lemma TimesAppend(items: seq<Item>, y: Item, x: Item)
    ensures Times(items + [y], x) == Times(items, x) + if x == y then 1 else 0
  {
    assert (items + [y])[..|items|] == items;
  }

  lemma {:induction false} HeldUpdate(ps: seq<WorkerPc>, w: nat, p: WorkerPc, x: Item)
    requires w < |ps|
    ensures Held(ps[w := p], x) ==
            Held(ps, x) - (if InHand(ps[w], x) then 1 else 0) + if InHand(p, x) then 1 else 0
  {
    if w == 0 {
      assert ps[0 := p][1..] == ps[1..];
    } else {
      assert ps[w := p][1..] == ps[1..][w - 1 := p];
      HeldUpdate(ps[1..], w - 1, p, x);
    }
  }

  lemma {:induction false} HeldNothing(ps: seq<WorkerPc>, x: Item)
    requires forall w :: 0 <= w < |ps| ==> !ps[w].Unlocking? && !ps[w].Processing?
    ensures Held(ps, x) == 0
  {
    if ps != [] {
      HeldNothing(ps[1..], x);
    }
  }

  lemma InitInv(s: State, n: nat)
    requires Init(s, n)
    ensures Inv(s)
  {
    forall x
      ensures Held(s.workers, x) == 0
    {
      HeldNothing(s.workers, x);
    }
  }

  lemma WorkerStepInv(s: State, w: nat, active: bool)
    requires Inv(s) && WorkerCanRun(s, w)
    ensures Inv(WorkerStep(s, w, active))
  {
    WorkerStepMutex(s, w, active);
    WorkerStepQueue(s, w, active);
    WorkerStepHands(s, w, active);
    WorkerStepWake(s, w, active);
  }

  lemma WorkerStepMutex(s: State, w: nat, active: bool)
    requires Inv(s) && WorkerCanRun(s, w)
    ensures MutexInv(WorkerStep(s, w, active))
  {
  }

  lemma WorkerStepQueue(s: State, w: nat, active: bool)
    requires Inv(s) && WorkerCanRun(s, w)
    ensures var s' := WorkerStep(s, w, active);
            && ValidRing(s'.ring) && s'.accepted == s'.taken + Contents(s'.ring)
            && s'.offered == |s'.accepted| + s'.dropped
  {
    if s.workers[w] == Testing && s.ring.count > 0 {
      var item := Oldest(s.ring);
      TakeContents(s.ring);
      assert (s.taken + [item]) + Contents(Take(s.ring)) == s.taken + ([item] + Contents(Take(s.ring)));
    }
  }

  lemma WorkerStepHands(s: State, w: nat, active: bool)
    requires Inv(s) && WorkerCanRun(s, w)
    ensures HandsInv(WorkerStep(s, w, active))
  {
    var s' := WorkerStep(s, w, active);
    assert s'.workers == s.workers[w := s'.workers[w]];
    forall x
      ensures Times(s'.taken, x) == Finished(s', x) + Held(s'.workers, x)
    {
      assert Times(s.taken, x) == Finished(s, x) + Held(s.workers, x);
      HeldUpdate(s.workers, w, s'.workers[w], x);
      if s.workers[w] == Testing && s.ring.count > 0 {
        TimesAppend(s.taken, Oldest(s.ring), x);
      } else if s.workers[w].Processing? {
        TimesAppend(s.processed, s.workers[w].item, x);
        TimesAppend(s.skipped, s.workers[w].item, x);
      }
    }
  }

  lemma WokenHands(s: State, w: nat)
    requires HandsInv(s) && IsAsleep(s, w)
    ensures HandsInv(s.(workers := s.workers[w := Woken]))
  {
    forall x
      ensures Held(s.workers[w := Woken], x) == Held(s.workers, x)
    {
      HeldUpdate(s.workers, w, Woken, x);
    }
  }

  lemma WorkerStepWake(s: State, w: nat, active: bool)
    requires Inv(s) && WorkerCanRun(s, w)
    ensures WakeInv(WorkerStep(s, w, active))
  {
    var s' := WorkerStep(s, w, active);
    SumByUpdate(s.workers, w, s'.workers[w], Inbound);
    assert s'.workers == s.workers[w := s'.workers[w]];
    SumByNonneg(s'.workers, Inbound);
    if v :| 0 <= v < |s'.workers| && s'.workers[v] == Asleep && v != w {
      assert s.workers[v] == Asleep;
    }
  }

  lemma EnqueueInv(s: State, wake: nat)
    requires Inv(s) && Enabled(s, MainEnqueue(wake))
    ensures Inv(EnqueueStep(s, s.main.item, wake))
  {
    EnqueueFlow(s, wake);
    EnqueueWake(s, wake);
    if IsAsleep(s, wake) {
      WokenHands(s, wake);
    }
  }

  lemma EnqueueFlow(s: State, wake: nat)
    requires Inv(s) && Enabled(s, MainEnqueue(wake))
    ensures FlowInv(EnqueueStep(s, s.main.item, wake))
  {
    PutContents(s.ring, s.main.item);
    var queued, item := Contents(s.ring), Stored(s.main.item);
    assert (s.taken + queued) + [item] == s.taken + (queued + [item]);
  }

  lemma EnqueueWake(s: State, wake: nat)
    requires Inv(s) && Enabled(s, MainEnqueue(wake))
    ensures WakeInv(EnqueueStep(s, s.main.item, wake))
  {
    if s.ring.count < QUEUE_SIZE && AnyAsleep(s) {
      SumByUpdate(s.workers, wake, Woken, Inbound);
    }
  }

  lemma SpuriousInv(s: State, w: nat)
    requires Inv(s) && IsAsleep(s, w)
    ensures Inv(Step(s, SpuriousWakeup(w)))
  {
    SumByUpdate(s.workers, w, Woken, Inbound);
    WokenHands(s, w);
  }

  lemma StepInv(s: State, a: Action)
    requires Inv(s) && Enabled(s, a)
    ensures Inv(Step(s, a))
  {
    match a
    case Work(w, active) => WorkerStepInv(s, w, active);
    case MainEnqueue(wake) => EnqueueInv(s, wake);
    case SpuriousWakeup(w) => SpuriousInv(s, w);
    case _ =>
  }

  // ----- whole runs -----

  ghost predicate IsRun(states: seq<State>, acts: seq<Action>) {
    && |states| == |acts| + 1
    && forall k :: 0 <= k < |acts| ==>
         Enabled(states[k], acts[k]) && (ValidRing(states[k].ring) ==> states[k + 1] == Step(states[k], acts[k]))
  }

  lemma StepKeepsWorkers(s: State, a: Action)
    requires ValidRing(s.ring) && Enabled(s, a)
    ensures |Step(s, a).workers| == |s.workers|
  {
  }

  lemma {:induction false} RunInv(n: nat, states: seq<State>, acts: seq<Action>, k: nat)
    requires IsRun(states, acts) && Init(states[0], n) && k < |states|
    ensures Inv(states[k]) && |states[k].workers| == n
  {
    if k == 0 {
      InitInv(states[0], n);
    } else {
      RunInv(n, states, acts, k - 1);
      StepInv(states[k - 1], acts[k - 1]);
      StepKeepsWorkers(states[k - 1], acts[k - 1]);
    }
  }

  /** In every reachable state, under any signals and spurious wakeups: while a worker
      sleeps the queue holds no more items than there are workers woken or about to
      test it. */
  lemma NoStrandedWork(n: nat, states: seq<State>, acts: seq<Action>, k: nat)
    requires IsRun(states, acts) && Init(states[0], n) && k < |states|
    ensures AnyAsleep(states[k]) ==> states[k].ring.count <= SumBy(states[k].workers, Inbound)
  {
    RunInv(n, states, acts, k);
  }

  /** First in first out, nothing lost or doubled: accepted items are the taken ones
      followed by the queue, a taken item is with exactly one worker, processed or skipped,
      and an item is dropped only when the queue holds QUEUE_SIZE. */
  lemma ItemsFlow(n: nat, states: seq<State>, acts: seq<Action>, k: nat)
    requires IsRun(states, acts) && Init(states[0], n) && k < |states|
    ensures var s := states[k];
            && ValidRing(s.ring)
            && s.accepted == s.taken + Contents(s.ring)
            && s.offered == |s.taken| + |Contents(s.ring)| + s.dropped
            && forall x :: Times(s.taken, x) == Finished(s, x) + Held(s.workers, x)
    ensures k < |acts| && states[k + 1].dropped > states[k].dropped ==> |Contents(states[k].ring)| == QUEUE_SIZE
  {
    RunInv(n, states, acts, k);
    if k < |acts| {
      assert states[k + 1] == Step(states[k], acts[k]);
    }
  }

  /** No worker can move and main is not inside enqueue_work. */
  ghost predicate Quiet(s: State) {
    s.main == Idle && forall w: nat :: !WorkerCanRun(s, w)
  }

  /** When the pool comes to rest every accepted item has been processed or skipped,
      exactly once. */
  lemma QuietMeansDone(s: State)
    requires Inv(s) && Quiet(s) && |s.workers| > 0
    ensures s.ring.count == 0
    ensures forall w :: 0 <= w < |s.workers| ==> s.workers[w] == Asleep
    ensures forall x :: Times(s.accepted, x) == Finished(s, x)
  {
    assert s.mutex == Nobody by {
      if s.mutex.Worker? {
        assert WorkerCanRun(s, s.mutex.w);
      }
    }
    forall w: nat | w < |s.workers|
      ensures s.workers[w] == Asleep
    {
      assert !WorkerCanRun(s, w);
    }
    assert s.workers[0] == Asleep;
    SumByConstant(s.workers, Inbound, 0);
    assert s.accepted == s.taken + [] == s.taken;
    forall x
      ensures Held(s.workers, x) == 0
    {
      HeldNothing(s.workers, x);
    }
  }

  function WorkerRank(p: WorkerPc): int {
    match p
    case Processing(_) => 4
    case Unlocking(_) => 5
    case Locking => 3
    case Woken => 3
    case Testing => 2
    case Asleep => 0
  }

  /** Worker steps still possible before the pool rests, if main offers nothing more
      and nobody wakes spuriously. */
  function Remaining(s: State): int {
    4 * s.ring.count + SumBy(s.workers, WorkerRank)
  }

  lemma WorkPays(s: State, w: nat, active: bool)
    requires Inv(s) && WorkerCanRun(s, w)
    ensures Remaining(WorkerStep(s, w, active)) < Remaining(s)
  {
    var s' := WorkerStep(s, w, active);
    SumByUpdate(s.workers, w, s'.workers[w], WorkerRank);
    assert s'.workers == s.workers[w := s'.workers[w]];
  }

  lemma RemainingNonneg(s: State)
    requires ValidRing(s.ring)
    ensures Remaining(s) >= 0
  {
    SumByNonneg(s.workers, WorkerRank);
  }

  ghost predicate OnlyWork(acts: seq<Action>) {
    forall k :: 0 <= k < |acts| ==> acts[k].Work?
  }

  /** No worker finds the session of its item gone. */
  ghost predicate AllActive(acts: seq<Action>) {
    forall k :: 0 <= k < |acts| && acts[k].Work? ==> acts[k].active
  }

  lemma AllActivePrefix(acts: seq<Action>)
    requires acts != []
    ensures var n := |acts| - 1;
            AllActive(acts) ==> AllActive(acts[..n]) && (acts[n].Work? ==> acts[n].active)
  {
  }

  lemma {:induction false} WorkRun(states: seq<State>, acts: seq<Action>, k: nat)
    requires IsRun(states, acts) && Inv(states[0]) && OnlyWork(acts) && k <= |acts|
    ensures Inv(states[k]) && k + Remaining(states[k]) <= Remaining(states[0])
    ensures AllActive(acts[..k]) ==> states[k].skipped == states[0].skipped
  {
    if k > 0 {
      WorkRun(states, acts, k - 1);
      assert states[k] == Step(states[k - 1], acts[k - 1]);
      assert acts[..k][..k - 1] == acts[..k - 1] && acts[..k][k - 1] == acts[k - 1];
      AllActivePrefix(acts[..k]);
      WorkPays(states[k - 1], acts[k - 1].w, acts[k - 1].active);
      WorkerStepInv(states[k - 1], acts[k - 1].w, acts[k - 1].active);
    }
  }

  lemma {:induction false} RankBound(ps: seq<WorkerPc>)
    ensures SumBy(ps, WorkerRank) <= 5 * |ps|
  {
    if ps != [] {
      RankBound(ps[1..]);
    }
  }

  /** Left alone, the pool comes to rest after at most 4 steps for each queued item
      and 5 for each worker, whatever the schedule, and at rest everything accepted
      has been processed, or skipped because its session had gone. */
  lemma PoolDrains(states: seq<State>, acts: seq<Action>)
    requires IsRun(states, acts) && Inv(states[0]) && OnlyWork(acts)
    ensures |acts| <= 4 * states[0].ring.count + 5 * |states[0].workers|
    ensures Quiet(states[|acts|]) && |states[|acts|].workers| > 0 ==>
              var s := states[|acts|];
              s.ring.count == 0 && forall x :: Times(s.accepted, x) == Finished(s, x)
    ensures AllActive(acts) ==> states[|acts|].skipped == states[0].skipped
  {
    WorkRun(states, acts, |acts|);
    assert acts[..|acts|] == acts;
    RemainingNonneg(states[|acts|]);
    RankBound(states[0].workers);
    if Quiet(states[|acts|]) && |states[|acts|].workers| > 0 {
      QuietMeansDone(states[|acts|]);
    }
  }

  // ----- what becomes of an item -----

  /** An item of a session that has gone is skipped; only an active one is processed. */
  lemma SkippedWhenGone(s: State, w: nat, active: bool)
    requires Inv(s) && WorkerCanRun(s, w) && s.workers[w].Processing?
    ensures var s', item := WorkerStep(s, w, active), s.workers[w].item;
            && s'.processed == s.processed + (if active then [item] else [])
            && s'.skipped == s.skipped + (if active then [] else [item])
            && s'.workers == s.workers[w := Locking]
  {
  }

  lemma OtherStepsFinishNothing(s: State, a: Action)
    requires ValidRing(s.ring) && Enabled(s, a) && !(a.Work? && s.workers[a.w].Processing?)
    ensures Step(s, a).processed == s.processed && Step(s, a).skipped == s.skipped
  {
  }

  /** A worker comes to the end with `x` in hand, its session active or gone. */
  predicate Finishes(s: State, a: Action, x: Item, active: bool) {
    a.Work? && a.active == active && a.w < |s.workers| && s.workers[a.w] == Processing(x)
  }

  function TimesFinished(states: seq<State>, acts: seq<Action>, x: Item, active: bool, k: nat): nat
    requires k <= |acts| && k <= |states|
  {
    if k == 0 then 0
    else
      TimesFinished(states, acts, x, active, k - 1)
      + if Finishes(states[k - 1], acts[k - 1], x, active) then 1 else 0
  }

  lemma FinishStep(s: State, a: Action, x: Item)
    requires Inv(s) && Enabled(s, a)
    ensures var s' := Step(s, a);
            && Times(s'.processed, x) == Times(s.processed, x) + (if Finishes(s, a, x, true) then 1 else 0)
            && Times(s'.skipped, x) == Times(s.skipped, x) + (if Finishes(s, a, x, false) then 1 else 0)
  {
    if a.Work? && s.workers[a.w].Processing? {
      SkippedWhenGone(s, a.w, a.active);
      TimesAppend(s.processed, s.workers[a.w].item, x);
      TimesAppend(s.skipped, s.workers[a.w].item, x);
      assert s.processed + [] == s.processed && s.skipped + [] == s.skipped;
    } else {
      OtherStepsFinishNothing(s, a);
    }
  }

  /** An item is processed as often as a worker finished it with its session active, and
      skipped as often as one found the session gone. */
  lemma {:induction false} ProcessedIffActive(n: nat, states: seq<State>, acts: seq<Action>, x: Item, k: nat)
    requires IsRun(states, acts) && Init(states[0], n) && k < |states|
    ensures Times(states[k].processed, x) == TimesFinished(states, acts, x, true, k)
    ensures Times(states[k].skipped, x) == TimesFinished(states, acts, x, false, k)
  {
    if k > 0 {
      ProcessedIffActive(n, states, acts, x, k - 1);
      RunInv(n, states, acts, k - 1);
      assert states[k] == Step(states[k - 1], acts[k - 1]);
      FinishStep(states[k - 1], acts[k - 1], x);
    }
  }

  // ----- what is accepted -----

  /** The items main was offered, in order. */
  function OfferedItems(acts: seq<Action>): seq<Item> {
    if acts == [] then []
    else
      var a := acts[|acts| - 1];
      OfferedItems(acts[..|acts| - 1]) + if a.Offer? then [a.item] else []
  }

  /** `accepted` are the offered items as they fit into the queue, in order and each
      once, but for those that were dropped. */
  predicate Selected(offered: seq<Item>, accepted: seq<Item>, dropped: nat) {
    if offered == [] then accepted == [] && dropped == 0
    else
      var n := |offered| - 1;
      || (accepted != [] && accepted[|accepted| - 1] == Stored(offered[n])
          && Selected(offered[..n], accepted[..|accepted| - 1], dropped))
      || (dropped > 0 && Selected(offered[..n], accepted, dropped - 1))
  }

  /** What main has in hand: the last item it was offered. */
  function InMain(pc: MainPc): seq<Item> {
    match pc
    case LockFor(item) => [item]
    case Enqueue(item) => [item]
    case _ => []
  }

  /** All items offered but the one in hand. */
  ghost predicate OffersKept(s: State, offered: seq<Item>) {
    exists handled :: offered == handled + InMain(s.main) && Selected(handled, s.accepted, s.dropped)
  }

  lemma SelectedAccept(offered: seq<Item>, accepted: seq<Item>, dropped: nat, item: Item)
    requires Selected(offered, accepted, dropped)
    ensures Selected(offered + [item], accepted + [Stored(item)], dropped)
    ensures Selected(offered + [item], accepted, dropped + 1)
  {
    hide Stored;
    assert (offered + [item])[..|offered|] == offered;
    assert (accepted + [Stored(item)])[..|accepted|] == accepted;
  }

  lemma OffersStep(s: State, a: Action, offered: seq<Item>)
    requires ValidRing(s.ring) && Enabled(s, a) && OffersKept(s, offered)
    ensures OffersKept(Step(s, a), offered + if a.Offer? then [a.item] else [])
  {
    hide Stored, Selected;
    var s' := Step(s, a);
    var handled :| offered == handled + InMain(s.main) && Selected(handled, s.accepted, s.dropped);
    if a.Offer? {
      assert offered + [a.item] == handled + InMain(s'.main);
    } else if a.MainEnqueue? {
      var item := s.main.item;
      SelectedAccept(handled, s.accepted, s.dropped, item);
      assert offered + [] == (handled + [item]) + InMain(s'.main);
    } else {
      assert offered + [] == handled + InMain(s'.main);
    }
  }

  /** In every run the accepted items are the items offered, in order and as they fit into
      the queue, without the dropped ones and the one main still has in hand. */
  lemma {:induction false} AcceptedAreOffered(n: nat, states: seq<State>, acts: seq<Action>, k: nat)
    requires IsRun(states, acts) && Init(states[0], n) && k <= |acts|
    ensures OffersKept(states[k], OfferedItems(acts[..k]))
  {
    if k == 0 {
      assert [] == [] + InMain(states[0].main);
      assert Selected([], states[0].accepted, states[0].dropped);
    } else {
      AcceptedAreOffered(n, states, acts, k - 1);
      RunInv(n, states, acts, k - 1);
      assert states[k] == Step(states[k - 1], acts[k - 1]);
      hide OffersKept, Step;
      OffersStep(states[k - 1], acts[k - 1], OfferedItems(acts[..k - 1]));
      assert acts[..k][..k - 1] == acts[..k - 1] && acts[..k][k - 1] == acts[k - 1];
    }
  }

  // ----- the pool never gets stuck -----

  /** A worker waits for nothing but the mutex and an item. */
  lemma WorkerBlockedOnlyBy(s: State, w: nat)
    requires w < |s.workers| && !WorkerCanRun(s, w)
    ensures s.workers[w] == Asleep || (s.workers[w] in {Locking, Woken} && s.mutex != Nobody)
  {
  }

  /** Main takes an offer whenever it is idle, and unless it is and no worker can run,
      somebody can go on without a new offer or a spurious wakeup. */
  lemma PoolMoves(s: State, item: Item)
    requires Inv(s)
    ensures s.main == Idle ==> Enabled(s, Offer(item))
    ensures !Quiet(s) ==> exists a :: Enabled(s, a) && !a.Offer? && !a.SpuriousWakeup?
    ensures forall w: nat :: IsAsleep(s, w) ==> Enabled(s, SpuriousWakeup(w))
    ensures forall w: nat :: IsAsleep(s, w) && s.main.Enqueue? ==> Enabled(s, MainEnqueue(w))
    ensures forall w: nat, active :: WorkerCanRun(s, w) ==> Enabled(s, Work(w, active))
  {
    if !Quiet(s) {
      if w: nat :| WorkerCanRun(s, w) {
        assert Enabled(s, Work(w, true)) && Enabled(s, Work(w, false));
      } else if s.main.LockFor? {
        assert s.mutex.Worker? ==> WorkerCanRun(s, s.mutex.w);
        assert Enabled(s, MainLock);
      } else if s.main.Enqueue? {
        if AnyAsleep(s) {
          var w :| 0 <= w < |s.workers| && s.workers[w] == Asleep;
          assert Enabled(s, MainEnqueue(w));
        } else {
          assert Enabled(s, MainEnqueue(0));
        }
      } else {
        assert Enabled(s, MainUnlock);
      }
    }
  }

  // ----- how long any run is -----

  /** Steps that main has left for the item in its hands, and those that the item and a
      woken worker add. */
  function MainRank(pc: MainPc): int {
    match pc
    case Idle => 0
    case LockFor(_) => 10
    case Enqueue(_) => 9
    case Release => 1
  }

  function Measure(s: State): int {
    Remaining(s) + MainRank(s.main)
  }

  /** What an action costs the measure, which all others bring down. */
  function Price(a: Action): int {
    if a.Offer? then 10 else if a.SpuriousWakeup? then 3 else -1
  }

  lemma EnqueuePays(s: State, wake: nat)
    requires Inv(s) && Enabled(s, MainEnqueue(wake))
    ensures Measure(EnqueueStep(s, s.main.item, wake)) <= Measure(s) - 1
  {
    if IsAsleep(s, wake) {
      SumByUpdate(s.workers, wake, Woken, WorkerRank);
    }
  }

  lemma MeasureStep(s: State, a: Action)
    requires Inv(s) && Enabled(s, a)
    ensures Measure(Step(s, a)) <= Measure(s) + Price(a)
  {
    match a
    case Work(w, active) => WorkPays(s, w, active);
    case MainEnqueue(wake) => EnqueuePays(s, wake);
    case SpuriousWakeup(w) => SumByUpdate(s.workers, w, Woken, WorkerRank);
    case _ =>
  }

  function Offers(acts: seq<Action>): nat {
    if acts == [] then 0 else Offers(acts[..|acts| - 1]) + if acts[|acts| - 1].Offer? then 1 else 0
  }

  function Spurious(acts: seq<Action>): nat {
    if acts == [] then 0
    else Spurious(acts[..|acts| - 1]) + if acts[|acts| - 1].SpuriousWakeup? then 1 else 0
  }

  lemma {:induction false} RunPays(n: nat, states: seq<State>, acts: seq<Action>, k: nat)
    requires IsRun(states, acts) && Init(states[0], n) && k <= |acts|
    ensures k + Measure(states[k]) <= Measure(states[0]) + 11 * Offers(acts[..k]) + 4 * Spurious(acts[..k])
  {
    if k > 0 {
      RunPays(n, states, acts, k - 1);
      RunInv(n, states, acts, k - 1);
      assert states[k] == Step(states[k - 1], acts[k - 1]);
      MeasureStep(states[k - 1], acts[k - 1]);
      assert acts[..k][..k - 1] == acts[..k - 1] && acts[..k][k - 1] == acts[k - 1];
    }
  }

  /** No run is longer than 11 steps for each item offered, 3 for each worker and 4 for
      each spurious wakeup: nobody ever spins. */
  lemma RunLengthBound(n: nat, states: seq<State>, acts: seq<Action>)
    requires IsRun(states, acts) && Init(states[0], n)
    ensures |acts| <= 11 * Offers(acts) + 3 * n + 4 * Spurious(acts)
  {
    RunPays(n, states, acts, |acts|);
    RunInv(n, states, acts, |acts|);
    RemainingNonneg(states[|acts|]);
    SumByConstant(states[0].workers, WorkerRank, 3);
    assert acts[..|acts|] == acts;
  }
}
