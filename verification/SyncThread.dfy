/** HW6/sync_thread.c: any number of producers fill `buff` under `put.mutex`,
    announce each item under `nready.mutex`, and one consumer takes the items in
    index order, reading `buff[i]` without any lock.

    Every statement that touches shared memory is one step of a global state
    machine, so the mutual exclusion the mutexes give is proved, not assumed. */
module SyncThread {
  import opened Counting

  const MAXNITEMS := 1000000
  const MAXNTHREADS := 100

  datatype Mutex = Free | HeldByProducer(p: nat) | HeldByConsumer

  /** The next statement of a producer. `UnlockFull` is the unlock on the way out. */
  datatype ProducerPc =
    | NotCreated | LockPut | TestFull | UnlockFull | Store | IncNput | IncNval | UnlockPut
    | LockReady | TestReady | IncReady | UnlockReady | IncCount | Returned

  /** `count` is the cell `count[i]` of main that the producer was given. */
  datatype Producer = Producer(pc: ProducerPc, count: int)

  /** `Asleep` is inside pthread_cond_wait, `Woken` is in it too but must only
      get the mutex back. */
  datatype ConsumerPc =
    | Unborn | TestLoop | Lock | TestWait | Asleep | Woken | DecReady | Unlock | Read | Ended

  datatype Consumer = Consumer(pc: ConsumerPc, i: int, mismatches: nat)

  datatype MainPc = Create(k: nat) | CreateConsumer | Join(k: nat) | JoinConsumer | Exited

  datatype State = State(
    nitems: int,
    buff: seq<int>, nput: int, nval: int, putMutex: Mutex,
    nready: int, readyMutex: Mutex,
    producers: seq<Producer>, consumer: Consumer,
    main: MainPc, printed: seq<int>)

  datatype Thread = Main | Producing(p: nat) | Consuming

  /** `SpuriousWakeup` is the return from pthread_cond_wait that POSIX allows at any time. */
  datatype Action = Run(t: Thread) | SpuriousWakeup

  // ----- the program -----

  /** `items` and `threads` are the two command line numbers; `counts` is what
      main's uninitialised array happens to hold. */
  ghost predicate Init(s: State, items: int, threads: int) {
    && s.nitems == Min(items, MAXNITEMS)
    && s.buff == seq(MAXNITEMS, _ => 0)
    && s.nput == 0 && s.nval == 0 && s.nready == 0
    && s.putMutex == Free && s.readyMutex == Free
    && |s.producers| == Max(0, Min(threads, MAXNTHREADS))
    && (forall p :: 0 <= p < |s.producers| ==> s.producers[p].pc == NotCreated)
    && s.consumer == Consumer(Unborn, 0, 0)
    && s.main == Create(0)
    && s.printed == []
  }

  predicate MainCanRun(s: State) {
    match s.main
    case Join(k) => k < |s.producers| ==> s.producers[k].pc == Returned
    case JoinConsumer => s.consumer.pc == Ended
    case Exited => false
    case _ => true
  }

  predicate ProducerCanRun(s: State, p: nat) {
    p < |s.producers| &&
    match s.producers[p].pc
    case NotCreated => false
    case Returned => false
    case LockPut => s.putMutex == Free
    case LockReady => s.readyMutex == Free
    case _ => true
  }

  predicate ConsumerCanRun(s: State) {
    match s.consumer.pc
    case Unborn => false
    case Ended => false
    case Asleep => false
    case Lock => s.readyMutex == Free
    case Woken => s.readyMutex == Free
    case _ => true
  }

  predicate CanRun(s: State, t: Thread) {
    match t
    case Main => MainCanRun(s)
    case Producing(p) => ProducerCanRun(s, p)
    case Consuming => ConsumerCanRun(s)
  }

  predicate Enabled(s: State, a: Action) {
    match a
    case Run(t) => CanRun(s, t)
    case SpuriousWakeup => s.consumer.pc == Asleep
  }

  function MainStep(s: State): State
    requires MainCanRun(s)
  {
    match s.main
    case Create(k) =>
      if k < |s.producers|
      then s.(producers := s.producers[k := Producer(LockPut, 0)], main := Create(k + 1))
      else s.(main := CreateConsumer)
    case CreateConsumer => s.(consumer := s.consumer.(pc := TestLoop, i := 0), main := Join(0))
    case Join(k) =>
      if k < |s.producers|
      then s.(printed := s.printed + [s.producers[k].count], main := Join(k + 1))
      else s.(main := JoinConsumer)
    case JoinConsumer => s.(main := Exited)
  }

  function Go(s: State, p: nat, pc: ProducerPc): State
    requires p < |s.producers|
  {
    s.(producers := s.producers[p := s.producers[p].(pc := pc)])
  }

  /** pthread_cond_signal: only the consumer ever waits. */
  function Signal(c: Consumer): Consumer {
    if c.pc == Asleep then c.(pc := Woken) else c
  }

  function ProducerStep(s: State, p: nat): State
    requires ProducerCanRun(s, p)
    requires s.producers[p].pc == Store ==> 0 <= s.nput < |s.buff|
  {
    match s.producers[p].pc
    case LockPut => Go(s, p, TestFull).(putMutex := HeldByProducer(p))
    case TestFull => Go(s, p, if s.nput >= s.nitems then UnlockFull else Store)
    case UnlockFull => Go(s, p, Returned).(putMutex := Free)
    case Store => Go(s, p, IncNput).(buff := s.buff[s.nput := s.nval])
    case IncNput => Go(s, p, IncNval).(nput := s.nput + 1)
    case IncNval => Go(s, p, UnlockPut).(nval := s.nval + 1)
    case UnlockPut => Go(s, p, LockReady).(putMutex := Free)
    case LockReady => Go(s, p, TestReady).(readyMutex := HeldByProducer(p))
    case TestReady =>
      Go(s, p, IncReady).(consumer := if s.nready == 0 then Signal(s.consumer) else s.consumer)
    case IncReady => Go(s, p, UnlockReady).(nready := s.nready + 1)
    case UnlockReady => Go(s, p, IncCount).(readyMutex := Free)
    case IncCount => s.(producers := s.producers[p := Producer(LockPut, s.producers[p].count + 1)])
  }

  function ConsumerStep(s: State): State
    requires ConsumerCanRun(s)
    requires s.consumer.pc == Read ==> 0 <= s.consumer.i < |s.buff|
  {
    var c := s.consumer;
    match c.pc
    case TestLoop => s.(consumer := c.(pc := if c.i < s.nitems then Lock else Ended))
    case Lock => s.(consumer := c.(pc := TestWait), readyMutex := HeldByConsumer)
    case TestWait =>
      if s.nready == 0
      then s.(consumer := c.(pc := Asleep), readyMutex := Free)
      else s.(consumer := c.(pc := DecReady))
    case Woken => s.(consumer := c.(pc := TestWait), readyMutex := HeldByConsumer)
    case DecReady => s.(consumer := c.(pc := Unlock), nready := s.nready - 1)
    case Unlock => s.(consumer := c.(pc := Read), readyMutex := Free)
    case Read =>
      s.(consumer := Consumer(TestLoop, c.i + 1,
                              if s.buff[c.i] != c.i then c.mismatches + 1 else c.mismatches))
  }

  /** The array accesses of the two unlocked-or-not statements are in bounds. */
  predicate InBounds(s: State) {
    && (forall p :: 0 <= p < |s.producers| && s.producers[p].pc == Store ==> 0 <= s.nput < |s.buff|)
    && (s.consumer.pc == Read ==> 0 <= s.consumer.i < |s.buff|)
  }

  function Step(s: State, a: Action): State
    requires InBounds(s) && Enabled(s, a)
  {
    match a
    case Run(Main) => MainStep(s)
    case Run(Producing(p)) => ProducerStep(s, p)
    case Run(Consuming) => ConsumerStep(s)
    case SpuriousWakeup => s.(consumer := s.consumer.(pc := Woken))
  }

  // ----- the inductive invariant -----

  predicate InPut(pc: ProducerPc) {
    pc in {TestFull, UnlockFull, Store, IncNput, IncNval, UnlockPut}
  }

  predicate InReady(pc: ProducerPc) {
    pc in {TestReady, IncReady, UnlockReady}
  }

  predicate InWait(pc: ConsumerPc) {
    pc in {TestWait, DecReady, Unlock}
  }

  /** 1 for a producer that has put an item it has not announced yet. */
  function Unannounced(p: Producer): int {
    if p.pc in {IncNval, UnlockPut, LockReady, TestReady, IncReady} then 1 else 0
  }

  /** Items a producer has put: those in its counter plus the one it is still working on. */
  function Produced(p: Producer): int {
    if p.pc == NotCreated then 0
    else p.count + if Unannounced(p) == 1 || p.pc in {UnlockReady, IncCount} then 1 else 0
  }

  /** Announcements the consumer has taken. */
  function Taken(c: Consumer): int {
    c.i + if c.pc in {Unlock, Read} then 1 else 0
  }

  function Target(s: State): int {
    Max(0, s.nitems)
  }

  predicate PutMutexInv(s: State) {
    && s.putMutex != HeldByConsumer
    && (s.putMutex.HeldByProducer? ==> s.putMutex.p < |s.producers|)
    && (forall p :: 0 <= p < |s.producers| ==>
          (InPut(s.producers[p].pc) <==> s.putMutex == HeldByProducer(p)))
  }

  predicate ReadyMutexInv(s: State) {
    && (s.readyMutex.HeldByProducer? ==> s.readyMutex.p < |s.producers|)
    && (forall p :: 0 <= p < |s.producers| ==>
          (InReady(s.producers[p].pc) <==> s.readyMutex == HeldByProducer(p)))
    && (InWait(s.consumer.pc) <==> s.readyMutex == HeldByConsumer)
  }

  predicate MutexInv(s: State) {
    PutMutexInv(s) && ReadyMutexInv(s)
  }

  /** The next statement of the thread inside the put section, `Returned` if nobody is. */
  function PutPc(s: State): ProducerPc {
    if s.putMutex.HeldByProducer? && s.putMutex.p < |s.producers|
    then s.producers[s.putMutex.p].pc else Returned
  }

  predicate BufferInv(s: State) {
    && s.nitems <= MAXNITEMS && |s.buff| == MAXNITEMS
    && 0 <= s.nput <= Target(s)
    && s.nval == s.nput - (if PutPc(s) == IncNval then 1 else 0)
    && (PutPc(s) in {Store, IncNput} ==> s.nput < s.nitems)
    && (PutPc(s) == IncNput ==> s.buff[s.nput] == s.nput)
    && (forall k :: 0 <= k < s.nput ==> s.buff[k] == k)
    && (forall p :: 0 <= p < |s.producers| && s.producers[p].pc in {UnlockFull, Returned} ==>
          s.nput >= s.nitems)
  }

  predicate CountInv(s: State) {
    && Taken(s.consumer) + s.nready + SumBy(s.producers, Unannounced) == s.nput
    && SumBy(s.producers, Produced) == s.nput
    && s.nready >= 0
  }

  predicate ConsumerInv(s: State) {
    var c := s.consumer;
    && 0 <= c.i <= Target(s)
    && c.mismatches == 0
    && (c.pc == Unborn ==> c.i == 0)
    && (c.pc == Ended ==> c.i >= s.nitems)
    && (c.pc !in {Unborn, Ended, TestLoop} ==> c.i < s.nitems)
    && (c.pc == DecReady ==> s.nready > 0)
  }

  /** No lost wakeup: while the consumer sleeps unsignalled there is nothing to
      take, and no producer is between its signal test and its increment. */
  predicate SleepInv(s: State) {
    s.consumer.pc == Asleep ==>
      s.nready == 0 && forall p :: 0 <= p < |s.producers| ==> s.producers[p].pc != IncReady
  }

  predicate MainInv(s: State) {
    && (s.consumer.pc == Unborn <==> s.main.Create? || s.main == CreateConsumer)
    && (match s.main
        case Create(k) => k <= |s.producers| && forall p :: 0 <= p < |s.producers| ==>
          (s.producers[p].pc == NotCreated <==> k <= p)
        case _ => forall p :: 0 <= p < |s.producers| ==> s.producers[p].pc != NotCreated)
    && (match s.main
        case Join(k) => k <= |s.producers| && JoinedUpTo(s, k)
        case JoinConsumer => JoinedUpTo(s, |s.producers|)
        case Exited => JoinedUpTo(s, |s.producers|) && s.consumer.pc == Ended
        case _ => s.printed == [])
  }

  predicate JoinedUpTo(s: State, k: nat)
    requires k <= |s.producers|
  {
    && |s.printed| == k
    && forall p :: 0 <= p < k ==> s.producers[p].pc == Returned && s.printed[p] == s.producers[p].count
  }

  predicate Inv(s: State) {
    && MutexInv(s) && BufferInv(s) && CountInv(s) && ConsumerInv(s) && SleepInv(s) && MainInv(s)
  }

  lemma InitInv(s: State, items: int, threads: int)
    requires Init(s, items, threads)
    ensures Inv(s)
  {
    SumByConstant(s.producers, Unannounced, 0);
    SumByConstant(s.producers, Produced, 0);
  }

  /** `putMutex` serialises the writers, so the array accesses stay inside `buff`. */
  lemma InvInBounds(s: State)
    requires Inv(s)
    ensures InBounds(s)
  {
    UnannouncedNonneg(s.producers);
  }

  lemma UnannouncedNonneg(ps: seq<Producer>)
    ensures SumBy(ps, Unannounced) >= 0
  {
    SumByNonneg(ps, Unannounced);
  }

  lemma MainStepInv(s: State)
    requires Inv(s) && MainCanRun(s)
    ensures Inv(MainStep(s))
  {
    MainStepCounts(s);
    MainStepThreads(s);
    MainStepConsumer(s);
    MainStepMain(s);
  }

  lemma MainStepCounts(s: State)
    requires Inv(s) && MainCanRun(s)
    ensures CountInv(MainStep(s))
  {
    if s.main.Create? && s.main.k < |s.producers| {
      SumByUpdate(s.producers, s.main.k, Producer(LockPut, 0), Unannounced);
      SumByUpdate(s.producers, s.main.k, Producer(LockPut, 0), Produced);
    }
  }

  lemma MainStepThreads(s: State)
    requires Inv(s) && MainCanRun(s)
    ensures MutexInv(MainStep(s)) && BufferInv(MainStep(s))
  {
  }

  lemma MainStepConsumer(s: State)
    requires Inv(s) && MainCanRun(s)
    ensures ConsumerInv(MainStep(s)) && SleepInv(MainStep(s))
  {
  }

  lemma MainStepMain(s: State)
    requires Inv(s) && MainCanRun(s)
    ensures MainInv(MainStep(s))
  {
  }

  lemma ConsumerStepInv(s: State)
    requires Inv(s) && ConsumerCanRun(s)
    ensures InBounds(s) && Inv(ConsumerStep(s))
  {
    InvInBounds(s);
    ConsumerStepCounts(s);
    ConsumerStepMutex(s);
    ConsumerStepSleep(s);
  }

  lemma ConsumerStepCounts(s: State)
    requires Inv(s) && InBounds(s) && ConsumerCanRun(s)
    ensures CountInv(ConsumerStep(s)) && ConsumerInv(ConsumerStep(s))
  {
    UnannouncedNonneg(s.producers);
  }

  lemma ConsumerStepMutex(s: State)
    requires MutexInv(s) && BufferInv(s) && InBounds(s) && ConsumerCanRun(s)
    ensures MutexInv(ConsumerStep(s)) && BufferInv(ConsumerStep(s))
  {
  }

  lemma ConsumerStepSleep(s: State)
    requires Inv(s) && InBounds(s) && ConsumerCanRun(s)
    ensures SleepInv(ConsumerStep(s)) && MainInv(ConsumerStep(s))
  {
  }

  lemma ProducerStepInv(s: State, p: nat)
    requires Inv(s) && ProducerCanRun(s, p)
    ensures InBounds(s) && Inv(ProducerStep(s, p))
  {
    InvInBounds(s);
    ProducerStepMutex(s, p);
    ProducerStepBuffer(s, p);
    ProducerStepCounts(s, p);
    ProducerStepConsumer(s, p);
    ProducerStepSleep(s, p);
    ProducerStepMain(s, p);
  }

  lemma ProducerStepMutex(s: State, p: nat)
    requires MutexInv(s) && InBounds(s) && ProducerCanRun(s, p)
    ensures MutexInv(ProducerStep(s, p))
  {
    ProducerStepPutMutex(s, p);
    ProducerStepReadyMutex(s, p);
  }

  lemma ProducerStepPutMutex(s: State, p: nat)
    requires PutMutexInv(s) && InBounds(s) && ProducerCanRun(s, p)
    ensures PutMutexInv(ProducerStep(s, p))
  {
  }

  lemma ProducerStepReadyMutex(s: State, p: nat)
    requires ReadyMutexInv(s) && InBounds(s) && ProducerCanRun(s, p)
    ensures ReadyMutexInv(ProducerStep(s, p))
  {
  }

  lemma ProducerStepBuffer(s: State, p: nat)
    requires PutMutexInv(s) && BufferInv(s) && InBounds(s) && ProducerCanRun(s, p)
    ensures BufferInv(ProducerStep(s, p))
  {
  }

  lemma ProducerStepCounts(s: State, p: nat)
    requires CountInv(s) && InBounds(s) && ProducerCanRun(s, p)
    ensures CountInv(ProducerStep(s, p))
  {
    var s' := ProducerStep(s, p);
    SumByUpdate(s.producers, p, s'.producers[p], Unannounced);
    SumByUpdate(s.producers, p, s'.producers[p], Produced);
    assert s'.producers == s.producers[p := s'.producers[p]];
  }

  lemma ProducerStepConsumer(s: State, p: nat)
    requires ConsumerInv(s) && BufferInv(s) && CountInv(s) && ReadyMutexInv(s) && InBounds(s) && ProducerCanRun(s, p)
    ensures ConsumerInv(ProducerStep(s, p))
  {
  }

  lemma ProducerStepSleep(s: State, p: nat)
    requires SleepInv(s) && ReadyMutexInv(s) && InBounds(s) && ProducerCanRun(s, p)
    ensures SleepInv(ProducerStep(s, p))
  {
  }

  lemma ProducerStepMain(s: State, p: nat)
    requires MainInv(s) && InBounds(s) && ProducerCanRun(s, p)
    ensures MainInv(ProducerStep(s, p))
  {
    var s' := ProducerStep(s, p);
    assert s'.main == s.main && s'.printed == s.printed;
    assert s'.consumer.pc == Unborn <==> s.consumer.pc == Unborn;
    assert s'.producers[p].pc != NotCreated;
    assert forall q :: 0 <= q < |s.producers| && q != p ==> s'.producers[q] == s.producers[q];
  }

  lemma StepInv(s: State, a: Action)
    requires Inv(s) && Enabled(s, a)
    ensures InBounds(s) && Inv(Step(s, a))
  {
    InvInBounds(s);
    match a
    case Run(Main) => MainStepInv(s);
    case Run(Producing(p)) => ProducerStepInv(s, p);
    case Run(Consuming) => ConsumerStepInv(s);
    case SpuriousWakeup =>
  }
}
