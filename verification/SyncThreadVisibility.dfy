/** HW6/sync_thread.c once more: why the consumer may read `buff[i]` without a lock.
    A mutex makes what its last owner knew known to its next owner; a thread knows of a
    write what it wrote or got to know that way. The write of slot `i` is shown to
    happen before the consumer's read of it, through the two mutexes alone. */
module SyncThreadVisibility {
  import opened SyncThread
  import opened SyncThreadRuns

  /** The slots whose write happens before the next step of each thread, and before the
      next lock of each mutex. For the proof: the slot each producer stored last, and the
      slots announced by an increment of nready. */
  datatype Known = Known(
    put: set<nat>, ready: set<nat>, producers: seq<set<nat>>, consumer: set<nat>,
    slot: seq<nat>, announced: set<nat>)

  predicate Sized(s: State, k: Known) {
    |k.producers| == |k.slot| == |s.producers|
  }

  function NothingKnown(s: State): Known {
    Known({}, {}, seq(|s.producers|, _ => {}), {}, seq(|s.producers|, _ => 0), {})
  }

  function Learns(k: Known, p: nat, more: set<nat>): Known
    requires p < |k.producers|
  {
    k.(producers := k.producers[p := k.producers[p] + more])
  }

  function ProducerKnows(s: State, k: Known, p: nat): Known
    requires Sized(s, k) && InBounds(s) && ProducerCanRun(s, p)
  {
    match s.producers[p].pc
    case LockPut => Learns(k, p, k.put)
    case UnlockFull => k.(put := k.producers[p])
    case Store => Learns(k, p, {s.nput}).(slot := k.slot[p := s.nput])
    case UnlockPut => k.(put := k.producers[p])
    case LockReady => Learns(k, p, k.ready)
    case IncReady => k.(announced := k.announced + {k.slot[p]})
    case UnlockReady => k.(ready := k.producers[p])
    case _ => k
  }

  /** Waiting releases the mutex, and waking up takes it again. */
  function ConsumerKnows(s: State, k: Known): Known {
    match s.consumer.pc
    case Lock => k.(consumer := k.consumer + k.ready)
    case Woken => k.(consumer := k.consumer + k.ready)
    case TestWait => if s.nready == 0 then k.(ready := k.consumer) else k
    case Unlock => k.(ready := k.consumer)
    case _ => k
  }

  function Knows(s: State, k: Known, a: Action): Known
    requires Sized(s, k) && InBounds(s) && Enabled(s, a)
  {
    match a
    case Run(Producing(p)) => ProducerKnows(s, k, p)
    case Run(Consuming) => ConsumerKnows(s, k)
    case _ => k
  }

  // ----- the inductive invariant -----

  /** All slots below `n` are known. */
  predicate Full(known: set<nat>, n: nat) {
    forall j: nat :: j < n ==> j in known
  }

  /** Whoever has the put mutex, or gets it next, knows every slot below nput. */
  predicate PutKnown(s: State, k: Known)
    requires Sized(s, k) && s.nput >= 0
  {
    && (s.putMutex == Free ==> Full(k.put, s.nput))
    && forall p :: 0 <= p < |s.producers| && InPut(s.producers[p].pc) ==>
         && Full(k.producers[p], s.nput)
         && (s.producers[p].pc == IncNput ==> k.slot[p] == s.nput && s.nput in k.producers[p])
  }

  /** The slot of an item that is put and not announced. */
  predicate Waiting(s: State, k: Known, p: nat)
    requires Sized(s, k) && p < |s.producers|
  {
    k.slot[p] < s.nput && k.slot[p] !in k.announced && Full(k.producers[p], k.slot[p] + 1)
  }

  predicate WaitingKnown(s: State, k: Known)
    requires Sized(s, k)
  {
    && (forall p :: 0 <= p < |s.producers| && Unannounced(s.producers[p]) == 1 ==> Waiting(s, k, p))
    && (forall p, q :: 0 <= p < q < |s.producers|
                       && Unannounced(s.producers[p]) == 1 && Unannounced(s.producers[q]) == 1 ==>
                       k.slot[p] != k.slot[q])
  }

  predicate Covers(known: set<nat>, announced: set<nat>) {
    forall j :: j in announced ==> Full(known, j + 1)
  }

  /** Whoever has the nready mutex, or gets it next, knows every announced slot and all
      below it. */
  predicate ReadyKnown(s: State, k: Known)
    requires Sized(s, k)
  {
    && |k.announced| == Taken(s.consumer) + s.nready
    && (forall j :: j in k.announced ==> j < s.nput)
    && (s.readyMutex == Free ==> Covers(k.ready, k.announced))
    && (s.readyMutex == HeldByConsumer ==> Covers(k.consumer, k.announced))
    && (forall p :: 0 <= p < |s.producers| && InReady(s.producers[p].pc) ==> Covers(k.producers[p], k.announced))
    && (forall p :: 0 <= p < |s.producers| && s.producers[p].pc == UnlockReady ==> k.slot[p] in k.announced)
  }

  predicate ReadKnown(s: State, k: Known) {
    s.consumer.pc in {Unlock, Read} ==> s.consumer.i >= 0 && s.consumer.i as nat in k.consumer
  }

  predicate KnownInv(s: State, k: Known)
    requires s.nput >= 0
  {
    Sized(s, k) && PutKnown(s, k) && WaitingKnown(s, k) && ReadyKnown(s, k) && ReadKnown(s, k)
  }

  lemma {:induction false} BelowCount(numbers: set<nat>, n: nat)
    requires forall j :: j in numbers ==> j < n
    ensures |numbers| <= n
  {
    if n > 0 {
      BelowCount(numbers - {n - 1}, n - 1);
    } else {
      assert numbers == {};
    }
  }

  /** Of more than `i` announced slots one is at least `i`, so that whoever covers them
      knows slot `i`, in whatever order they were announced. */
  lemma ManyAnnounced(known: set<nat>, announced: set<nat>, i: nat)
    requires Covers(known, announced) && |announced| > i
    ensures i in known
  {
    if forall j :: j in announced ==> j < i {
      BelowCount(announced, i);
    } else {
      var j :| j in announced && j >= i;
      assert Full(known, j + 1);
    }
  }

  lemma ProducerSized(s: State, k: Known, p: nat)
    requires Sized(s, k) && BufferInv(s) && InBounds(s) && ProducerCanRun(s, p)
    ensures Sized(ProducerStep(s, p), ProducerKnows(s, k, p)) && ProducerStep(s, p).nput >= 0
    ensures forall q :: 0 <= q < |s.producers| && q != p ==>
              && ProducerStep(s, p).producers[q] == s.producers[q]
              && ProducerKnows(s, k, p).producers[q] == k.producers[q]
              && ProducerKnows(s, k, p).slot[q] == k.slot[q]
  {
  }

  /** What the running producer itself knows afterwards. */
  lemma OwnPutKnown(s: State, k: Known, p: nat)
    requires PutMutexInv(s) && Sized(s, k) && BufferInv(s) && InBounds(s) && ProducerCanRun(s, p) && PutKnown(s, k)
    ensures var s', k' := ProducerStep(s, p), ProducerKnows(s, k, p);
            && Sized(s', k') && s'.nput >= 0
            && (s'.putMutex == Free ==> Full(k'.put, s'.nput))
            && (InPut(s'.producers[p].pc) ==> Full(k'.producers[p], s'.nput))
            && (s'.producers[p].pc == IncNput ==> k'.slot[p] == s'.nput && s'.nput in k'.producers[p])
  {
  }

  lemma ProducerPutKnown(s: State, k: Known, p: nat)
    requires PutMutexInv(s) && Sized(s, k) && BufferInv(s) && InBounds(s) && ProducerCanRun(s, p) && PutKnown(s, k)
    ensures Sized(ProducerStep(s, p), ProducerKnows(s, k, p)) && ProducerStep(s, p).nput >= 0
    ensures PutKnown(ProducerStep(s, p), ProducerKnows(s, k, p))
  {
    ProducerSized(s, k, p);
    OwnPutKnown(s, k, p);
    OthersKeepNput(s, p);
    hide ProducerStep, ProducerKnows, Full;
  }

  /** A producer in the put section is the only one that changes nput. */
  lemma OthersKeepNput(s: State, p: nat)
    requires PutMutexInv(s) && InBounds(s) && ProducerCanRun(s, p)
    ensures forall q :: 0 <= q < |s.producers| && q != p && InPut(s.producers[q].pc) ==>
              ProducerStep(s, p).nput == s.nput
    ensures ProducerStep(s, p).nput >= s.nput
  {
  }

  lemma OwnWaiting(s: State, k: Known, p: nat)
    requires PutMutexInv(s) && Sized(s, k) && BufferInv(s) && InBounds(s) && ProducerCanRun(s, p)
    requires PutKnown(s, k) && (forall j :: j in k.announced ==> j < s.nput)
    requires Unannounced(s.producers[p]) == 1 ==> Waiting(s, k, p)
    ensures var s', k' := ProducerStep(s, p), ProducerKnows(s, k, p);
            Sized(s', k') && (Unannounced(s'.producers[p]) == 1 ==> Waiting(s', k', p))
  {
  }

  /** An item gets the slot nput, which nobody else has. */
  lemma OwnSlot(s: State, k: Known, p: nat)
    requires PutMutexInv(s) && Sized(s, k) && BufferInv(s) && InBounds(s) && ProducerCanRun(s, p) && PutKnown(s, k)
    ensures var s', k' := ProducerStep(s, p), ProducerKnows(s, k, p);
            Unannounced(s'.producers[p]) == 1 ==>
              k'.slot[p] == k.slot[p] && (Unannounced(s.producers[p]) == 1 || k.slot[p] == s.nput)
  {
  }

  lemma AnnouncedGrows(s: State, k: Known, p: nat)
    requires Sized(s, k) && InBounds(s) && ProducerCanRun(s, p)
    ensures ProducerKnows(s, k, p).announced ==
            if s.producers[p].pc == IncReady then k.announced + {k.slot[p]} else k.announced
    ensures Unannounced(ProducerStep(s, p).producers[p]) == 1 ==> s.producers[p].pc != IncReady
  {
  }

  lemma ProducerWaitingKnown(s: State, k: Known, p: nat)
    requires Inv(s) && InBounds(s) && ProducerCanRun(s, p) && KnownInv(s, k)
    ensures Sized(ProducerStep(s, p), ProducerKnows(s, k, p))
    ensures WaitingKnown(ProducerStep(s, p), ProducerKnows(s, k, p))
  {
    ProducerSized(s, k, p);
    OwnWaiting(s, k, p);
    OwnSlot(s, k, p);
    OthersKeepNput(s, p);
    AnnouncedGrows(s, k, p);
    hide ProducerStep, ProducerKnows, Full, KnownInv, Inv, Waiting, InBounds;
    OthersWaiting(s, k, p, ProducerStep(s, p), ProducerKnows(s, k, p));
  }

  lemma OthersWaiting(s: State, k: Known, p: nat, s': State, k': Known)
    requires Sized(s, k) && Sized(s', k') && p < |s.producers| == |s'.producers| && WaitingKnown(s, k)
    requires s.nput <= s'.nput
    requires k'.announced == k.announced
             || (s.producers[p].pc == IncReady && k'.announced == k.announced + {k.slot[p]})
    requires forall q :: 0 <= q < |s.producers| && q != p ==>
               && s'.producers[q] == s.producers[q] && k'.producers[q] == k.producers[q] && k'.slot[q] == k.slot[q]
    requires Unannounced(s'.producers[p]) == 1 ==>
               k'.slot[p] == k.slot[p] && (Unannounced(s.producers[p]) == 1 || k.slot[p] == s.nput)
    ensures forall q :: 0 <= q < |s'.producers| && q != p && Unannounced(s'.producers[q]) == 1 ==>
              Waiting(s', k', q) && (Unannounced(s'.producers[p]) == 1 ==> k'.slot[q] != k'.slot[p])
    ensures forall q, r :: 0 <= q < r < |s'.producers| && q != p && r != p
                           && Unannounced(s'.producers[q]) == 1 && Unannounced(s'.producers[r]) == 1 ==>
                           k'.slot[q] != k'.slot[r]
  {
    hide Full;
    forall q | 0 <= q < |s'.producers| && q != p && Unannounced(s'.producers[q]) == 1
      ensures Waiting(s', k', q) && (Unannounced(s'.producers[p]) == 1 ==> k'.slot[q] != k'.slot[p])
    {
      assert Waiting(s, k, q);
    }
  }

  lemma OwnCovers(s: State, k: Known, p: nat)
    requires ReadyMutexInv(s) && Sized(s, k) && InBounds(s) && ProducerCanRun(s, p) && ReadyKnown(s, k)
    requires s.producers[p].pc == IncReady ==> Full(k.producers[p], k.slot[p] + 1)
    ensures var s', k' := ProducerStep(s, p), ProducerKnows(s, k, p);
            && Sized(s', k')
            && (s'.readyMutex == Free ==> Covers(k'.ready, k'.announced))
            && (InReady(s'.producers[p].pc) ==> Covers(k'.producers[p], k'.announced))
            && (s'.producers[p].pc == UnlockReady ==> k'.slot[p] in k'.announced)
  {
  }

  lemma CountAnnounced(s: State, k: Known, p: nat)
    requires ReadyMutexInv(s) && Sized(s, k) && InBounds(s) && ProducerCanRun(s, p) && ReadyKnown(s, k)
    requires s.producers[p].pc == IncReady ==> k.slot[p] < s.nput && k.slot[p] !in k.announced
    ensures var s', k' := ProducerStep(s, p), ProducerKnows(s, k, p);
            && |k'.announced| == Taken(s'.consumer) + s'.nready
            && (forall j :: j in k'.announced ==> j < s'.nput)
            && k'.consumer == k.consumer && (s'.readyMutex == HeldByConsumer <==> s.readyMutex == HeldByConsumer)
  {
  }

  lemma ProducerReadyKnown(s: State, k: Known, p: nat)
    requires Inv(s) && InBounds(s) && ProducerCanRun(s, p) && KnownInv(s, k)
    ensures Sized(ProducerStep(s, p), ProducerKnows(s, k, p))
    ensures ReadyKnown(ProducerStep(s, p), ProducerKnows(s, k, p))
  {
    assert s.producers[p].pc == IncReady ==> Waiting(s, k, p);
    ProducerSized(s, k, p);
    OwnCovers(s, k, p);
    CountAnnounced(s, k, p);
    AnnouncedGrows(s, k, p);
    assert ReadyMutexInv(s);
    assert ReadyKnown(s, k);
    hide KnownInv, Inv, MutexInv, InBounds, Waiting;
    var s', k' := ProducerStep(s, p), ProducerKnows(s, k, p);
    hide ProducerStep, ProducerKnows;
    OthersReady(s, k, p, s', k');
    hide ReadyMutexInv;
    ReadyFromParts(s', k', p);
  }

  lemma ReadyFromParts(s: State, k: Known, p: nat)
    requires Sized(s, k) && p < |s.producers|
    requires |k.announced| == Taken(s.consumer) + s.nready && forall j :: j in k.announced ==> j < s.nput
    requires s.readyMutex == Free ==> Covers(k.ready, k.announced)
    requires s.readyMutex == HeldByConsumer ==> Covers(k.consumer, k.announced)
    requires InReady(s.producers[p].pc) ==> Covers(k.producers[p], k.announced)
    requires s.producers[p].pc == UnlockReady ==> k.slot[p] in k.announced
    requires forall q :: 0 <= q < |s.producers| && q != p && InReady(s.producers[q].pc) ==>
               Covers(k.producers[q], k.announced)
    requires forall q :: 0 <= q < |s.producers| && q != p && s.producers[q].pc == UnlockReady ==>
               k.slot[q] in k.announced
    ensures ReadyKnown(s, k)
  {
    hide Covers;
  }

  lemma ProducerReadKnown(s: State, k: Known, p: nat)
    requires InBounds(s) && Sized(s, k) && ProducerCanRun(s, p) && ReadKnown(s, k)
    ensures ReadKnown(ProducerStep(s, p), ProducerKnows(s, k, p))
  {
  }

  lemma OthersReady(s: State, k: Known, p: nat, s': State, k': Known)
    requires ReadyMutexInv(s) && Sized(s, k) && Sized(s', k') && p < |s.producers| == |s'.producers|
    requires ReadyKnown(s, k)
    requires k'.announced == k.announced || s.producers[p].pc == IncReady
    requires forall q :: 0 <= q < |s.producers| && q != p ==>
               && s'.producers[q] == s.producers[q] && k'.producers[q] == k.producers[q] && k'.slot[q] == k.slot[q]
    requires k'.consumer == k.consumer && (s'.readyMutex == HeldByConsumer <==> s.readyMutex == HeldByConsumer)
    ensures forall q :: 0 <= q < |s.producers| && q != p && InReady(s'.producers[q].pc) ==>
              Covers(k'.producers[q], k'.announced)
    ensures forall q :: 0 <= q < |s.producers| && q != p && s'.producers[q].pc == UnlockReady ==>
              k'.slot[q] in k'.announced
    ensures s'.readyMutex == HeldByConsumer ==> Covers(k'.consumer, k'.announced)
  {
    hide Covers;
  }

  lemma ConsumerKnownInv(s: State, k: Known)
    requires Inv(s) && InBounds(s) && ConsumerCanRun(s) && KnownInv(s, k)
    ensures KnownInv(ConsumerStep(s), ConsumerKnows(s, k))
  {
    if s.consumer.pc == DecReady {
      ManyAnnounced(k.consumer, k.announced, s.consumer.i);
    }
  }

  lemma MainKnownInv(s: State, k: Known)
    requires Inv(s) && MainCanRun(s) && KnownInv(s, k)
    ensures KnownInv(MainStep(s), k)
  {
  }

  lemma StepKnownInv(s: State, k: Known, a: Action)
    requires Inv(s) && InBounds(s) && Enabled(s, a) && KnownInv(s, k)
    ensures Step(s, a).nput >= 0 && KnownInv(Step(s, a), Knows(s, k, a))
  {
    match a
    case Run(Producing(p)) =>
      ProducerPutKnown(s, k, p);
      ProducerWaitingKnown(s, k, p);
      ProducerReadyKnown(s, k, p);
      ProducerReadKnown(s, k, p);
    case Run(Consuming) => ConsumerKnownInv(s, k);
    case Run(Main) => MainKnownInv(s, k);
    case SpuriousWakeup =>
  }

  // ----- runs -----

  /** What is known in state `n` of a run. */
  function KnownAt(states: seq<State>, acts: seq<Action>, n: nat): Known
    requires IsRun(states, acts) && n < |states|
  {
    if n == 0 then NothingKnown(states[0])
    else
      var s, k, a := states[n - 1], KnownAt(states, acts, n - 1), acts[n - 1];
      assert Next(s, a, states[n]);
      if Sized(s, k) && InBounds(s) then Knows(s, k, a) else k
  }

  lemma {:induction false} KnownRun(items: int, threads: int, states: seq<State>, acts: seq<Action>, n: nat)
    requires RunOf(items, threads, states, acts) && n < |states|
    ensures Inv(states[n]) && KnownInv(states[n], KnownAt(states, acts, n))
  {
    RunInv(items, threads, states, acts, n);
    if n == 0 {
      NothingKnownInv(states[0]);
    } else {
      hide Inv, KnownInv, Knows, Step, Enabled;
      KnownRun(items, threads, states, acts, n - 1);
      var s, k, a := states[n - 1], KnownAt(states, acts, n - 1), acts[n - 1];
      assert Next(s, a, states[n]);
      InvInBounds(s);
      StepKnownInv(s, k, a);
      KnownIsSized(s, k);
    }
  }

  lemma KnownIsSized(s: State, k: Known)
    requires Inv(s) && KnownInv(s, k)
    ensures Sized(s, k)
  {
  }

  lemma NothingKnownInv(s: State)
    requires Inv(s) && s.nput == 0 && s.nready == 0 && Taken(s.consumer) == 0
    requires forall p :: 0 <= p < |s.producers| ==> s.producers[p].pc == NotCreated
    requires s.consumer.pc == Unborn
    ensures KnownInv(s, NothingKnown(s))
  {
  }

  /** In every run, when the consumer is about to read `buff[i]`, the producer's write of
      that slot happens before the read by the locking of the two mutexes. */
  lemma WriteHappensBeforeRead(items: int, threads: int, states: seq<State>, acts: seq<Action>, n: nat)
    requires RunOf(items, threads, states, acts) && n < |states| && states[n].consumer.pc == Read
    ensures 0 <= states[n].consumer.i && states[n].consumer.i as nat in KnownAt(states, acts, n).consumer
  {
    KnownRun(items, threads, states, acts, n);
  }

  /** Every write of a slot happens before the next one of any slot: a producer about to
      store knows all slots stored so far. */
  lemma WritesAreOrdered(items: int, threads: int, states: seq<State>, acts: seq<Action>, n: nat, p: nat)
    requires RunOf(items, threads, states, acts) && n < |states|
    requires p < |states[n].producers| && states[n].producers[p].pc == Store
    ensures var k := KnownAt(states, acts, n);
            p < |k.producers| && forall j: nat :: j < states[n].nput ==> j in k.producers[p]
  {
    KnownRun(items, threads, states, acts, n);
  }
}
