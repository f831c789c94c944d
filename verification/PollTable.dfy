/** The poll table of HW7/TCP_Server/server.c: two parallel arrays, poll_fds and
    sessions, that grow by doubling and shrink by shifting. Entry 0 is the listening
    socket and has no session. */
module PollTable {
  import opened Counting

  const INITIAL_POLL_SIZE := 64
  const POLLIN := 1

  datatype PollFd = PollFd(fd: int, events: int)

  class Session {
    var loggedIn: bool
    var username: string
    const sockfd: int
    const clientIp: string
    const clientPort: int
    var active: bool
    var leftoverLen: nat

    constructor (sockfd: int, ip: string, port: int)
      ensures this.sockfd == sockfd && this.clientIp == ip && this.clientPort == port
      ensures !loggedIn && username == "" && active && leftoverLen == 0
    {
      loggedIn, username, active, leftoverLen := false, "", true, 0;
      this.sockfd, this.clientIp, this.clientPort := sockfd, ip, port;
    }
  }

  // ----- how the capacity grows -----

  /** Sizes over a run: `peak` is the largest number of entries reached. */
  datatype Capacity = Capacity(size: nat, count: nat, peak: nat)

  /** `Refuse` is an add for which there was no memory; the arrays may have grown before. */
  datatype Op = Add | Refuse(grown: bool) | Remove

  function Grown(c: Capacity, op: Op): Capacity {
    match op
    case Add =>
      var size := if c.count >= c.size then 2 * c.size else c.size;
      Capacity(size, c.count + 1, Max(c.peak, c.count + 1))
    case Refuse(grown) =>
      if grown && c.count >= c.size then c.(size := 2 * c.size) else c
    case Remove => if c.count == 0 then c else c.(count := c.count - 1)
  }

  function AfterOps(ops: seq<Op>): Capacity {
    if ops == [] then Capacity(INITIAL_POLL_SIZE, 1, 1)
    else Grown(AfterOps(ops[..|ops| - 1]), ops[|ops| - 1])
  }

  lemma OpsAppend(ops: seq<Op>, op: Op)
    ensures AfterOps(ops + [op]) == Grown(AfterOps(ops), op)
  {
    assert (ops + [op])[..|ops|] == ops;
  }

  function Pow2(k: nat): nat {
    if k == 0 then 1 else 2 * Pow2(k - 1)
  }

  predicate CapacityOk(c: Capacity, k: nat) {
    && c.size == INITIAL_POLL_SIZE * Pow2(k) && c.size >= INITIAL_POLL_SIZE
    && c.count <= c.size && c.count <= c.peak <= c.size
    && c.size <= Max(INITIAL_POLL_SIZE, 2 * c.peak)
  }

  predicate Doubles(c: Capacity, op: Op) {
    c.count >= c.size && (op == Add || op == Refuse(true))
  }

  lemma GrownOk(c: Capacity, op: Op, k: nat)
    requires CapacityOk(c, k)
    ensures CapacityOk(Grown(c, op), if Doubles(c, op) then k + 1 else k)
  {
  }

  /** Over any run of adds, refused adds and removes the size is 64 * 2^k, holds all
      entries, and is at most twice the peak once it has grown. */
  lemma {:induction false} GrowthBound(ops: seq<Op>) returns (k: nat)
    ensures var c := AfterOps(ops);
            && c.size == INITIAL_POLL_SIZE * Pow2(k) && c.count <= c.peak <= c.size
            && c.size <= Max(INITIAL_POLL_SIZE, 2 * c.peak)
    ensures CapacityOk(AfterOps(ops), k)
  {
    if ops == [] {
      k := 0;
    } else {
      var n := |ops| - 1;
      var j := GrowthBound(ops[..n]);
      var c := AfterOps(ops[..n]);
      GrownOk(c, ops[n], j);
      k := if Doubles(c, ops[n]) then j + 1 else j;
    }
  }

  function CountAfter(ops: seq<Op>, m: nat): nat
    requires m <= |ops|
  {
    AfterOps(ops[..m]).count
  }

  /** The peak is the largest number of entries of the run. */
  lemma {:induction false} PeakIsHighest(ops: seq<Op>) returns (m: nat)
    ensures forall i :: 0 <= i <= |ops| ==> CountAfter(ops, i) <= AfterOps(ops).peak
    ensures m <= |ops| && CountAfter(ops, m) == AfterOps(ops).peak
  {
    assert ops[..|ops|] == ops;
    var k := GrowthBound(ops);
    if ops == [] {
      m := 0;
    } else {
      var n := |ops| - 1;
      m := PeakIsHighest(ops[..n]);
      assert forall i :: 0 <= i <= n ==> ops[..n][..i] == ops[..i];
      assert forall i :: 0 <= i <= n ==> CountAfter(ops, i) == CountAfter(ops[..n], i);
      if AfterOps(ops).peak > AfterOps(ops[..n]).peak {
        m := |ops|;
      }
    }
  }

  /** Step `j` made room for an add that was refused, and the room was never used. */
  ghost predicate UnusedGrowth(ops: seq<Op>, j: nat)
    requires j < |ops|
  {
    && ops[j] == Refuse(true) && Doubles(AfterOps(ops[..j]), ops[j])
    && forall m :: j < m <= |ops| ==> CountAfter(ops, m) <= CountAfter(ops, j)
  }

  /** The room was made when the peak had been reached. */
  lemma UnusedGrowthPeak(ops: seq<Op>, j: nat)
    requires j < |ops| && UnusedGrowth(ops, j)
    ensures AfterOps(ops).peak == CountAfter(ops, j)
  {
    var m := PeakIsHighest(ops);
    var k := GrowthBound(ops[..j]);
    var i := PeakIsHighest(ops[..j]);
    if m <= j {
      assert ops[..j][..m] == ops[..m];
      assert CountAfter(ops[..j], m) == CountAfter(ops, m);
    }
  }

  ghost predicate SomeUnusedGrowth(ops: seq<Op>) {
    exists j :: 0 <= j < |ops| && UnusedGrowth(ops, j)
  }

  lemma CountsAppend(ops: seq<Op>, op: Op)
    ensures forall m :: 0 <= m <= |ops| ==> (ops + [op])[..m] == ops[..m]
    ensures forall m :: 0 <= m <= |ops| ==> CountAfter(ops + [op], m) == CountAfter(ops, m)
    ensures CountAfter(ops + [op], |ops| + 1) == Grown(AfterOps(ops), op).count
    ensures CountAfter(ops, |ops|) == AfterOps(ops).count
  {
    var all, n := ops + [op], |ops|;
    assert all[..n + 1] == all && ops[..n] == ops;
    OpsAppend(ops, op);
    assert forall m :: 0 <= m <= n ==> all[..m] == ops[..m];
  }

  lemma UnusedGrowthStays(ops: seq<Op>, op: Op, j: nat)
    requires j < |ops|
    ensures UnusedGrowth(ops + [op], j) <==>
            UnusedGrowth(ops, j) && Grown(AfterOps(ops), op).count <= AfterOps(ops).peak
  {
    CountsAppend(ops, op);
    var all, n := ops + [op], |ops|;
    hide AfterOps, Grown, CountAfter;
    assert all[..j] == ops[..j];
    if UnusedGrowth(ops, j) {
      UnusedGrowthPeak(ops, j);
    }
  }

  lemma UnusedGrowthNow(ops: seq<Op>, op: Op)
    ensures UnusedGrowth(ops + [op], |ops|) <==> op == Refuse(true) && Doubles(AfterOps(ops), op)
  {
    var all, n := ops + [op], |ops|;
    assert all[..n] == ops && all[..n + 1] == all;
    OpsAppend(ops, op);
    assert op == Refuse(true) ==> Grown(AfterOps(ops), op).count == AfterOps(ops).count;
    assert CountAfter(all, n) == AfterOps(ops).count && CountAfter(all, n + 1) == Grown(AfterOps(ops), op).count;
    hide AfterOps, CountAfter, Grown, Doubles;
    assert forall m :: n < m <= n + 1 ==> CountAfter(all, m) == CountAfter(all, n + 1);
  }

  lemma UnusedGrowthAppend(ops: seq<Op>, op: Op)
    ensures SomeUnusedGrowth(ops + [op]) <==>
            || (op == Refuse(true) && Doubles(AfterOps(ops), op))
            || (SomeUnusedGrowth(ops) && Grown(AfterOps(ops), op).count <= AfterOps(ops).peak)
  {
    hide AfterOps, Grown, UnusedGrowth, Doubles;
    UnusedGrowthNow(ops, op);
    forall j | 0 <= j < |ops|
      ensures UnusedGrowth(ops + [op], j) <==>
              UnusedGrowth(ops, j) && Grown(AfterOps(ops), op).count <= AfterOps(ops).peak
    {
      UnusedGrowthStays(ops, op, j);
    }
    if j :| 0 <= j < |ops| && UnusedGrowth(ops, j) && Grown(AfterOps(ops), op).count <= AfterOps(ops).peak {
      assert UnusedGrowth(ops + [op], j);
    }
  }

  /** The size is more than the peak needed exactly when it is twice the peak. */
  lemma {:induction false} UnusedIff(ops: seq<Op>)
    ensures var c := AfterOps(ops);
            SomeUnusedGrowth(ops) <==> c.size == 2 * c.peak && c.size > INITIAL_POLL_SIZE
  {
    if ops != [] {
      var n := |ops| - 1;
      UnusedIff(ops[..n]);
      assert ops == ops[..n] + [ops[n]];
      UnusedGrowthAppend(ops[..n], ops[n]);
      var k := GrowthBound(ops[..n]);
    }
  }

  /** The size stays within 2 * (peak - 1), that is, every doubling was needed, if and
      only if no room was made for a refused add and then never used. */
  lemma GrowthNeededIff(ops: seq<Op>)
    ensures var c := AfterOps(ops);
            c.size <= Max(INITIAL_POLL_SIZE, 2 * (c.peak - 1)) <==>
            !exists j :: 0 <= j < |ops| && UnusedGrowth(ops, j)
  {
    UnusedIff(ops);
    var k := GrowthBound(ops);
    SizeIsEven(k);
    hide AfterOps, UnusedGrowth, Pow2;
  }

  lemma SizeIsEven(k: nat)
    ensures (INITIAL_POLL_SIZE * Pow2(k)) % 2 == 0
  {
    var p := Pow2(k);
    hide Pow2;
    assert INITIAL_POLL_SIZE * p == 2 * (32 * p);
  }

  /** It does happen: a full table of 64 grows for a connection that is then refused. */
  lemma RefusedAddGrows() returns (ops: seq<Op>)
    ensures ops == seq(INITIAL_POLL_SIZE - 1, _ => Add) + [Refuse(true)]
    ensures AfterOps(ops) == Capacity(128, 64, 64)
  {
    AddsUntilFull(INITIAL_POLL_SIZE - 1);
    ops := seq(INITIAL_POLL_SIZE - 1, _ => Add) + [Refuse(true)];
    OpsAppend(seq(INITIAL_POLL_SIZE - 1, _ => Add), Refuse(true));
  }

  /** A full table is reached: 63 connections fill the first 64 entries. */
  lemma {:induction false} AddsUntilFull(n: nat)
    requires n < INITIAL_POLL_SIZE
    ensures AfterOps(seq(n, _ => Add)) == Capacity(INITIAL_POLL_SIZE, n + 1, n + 1)
  {
    if n > 0 {
      AddsUntilFull(n - 1);
      assert seq(n, _ => Add) == seq(n - 1, _ => Add) + [Add];
      OpsAppend(seq(n - 1, _ => Add), Add);
    }
  }

  // ----- the table as a sequence of entries -----

  datatype Entry = Entry(poll: PollFd, session: Session?)

  /** The two arrays side by side. */
  function Zip(fds: seq<PollFd>, ss: seq<Session?>): (es: seq<Entry>)
    requires |fds| == |ss|
    ensures |es| == |fds| && forall k :: 0 <= k < |es| ==> es[k] == Entry(fds[k], ss[k])
  {
    seq(|fds|, k requires 0 <= k < |fds| && |fds| == |ss| => Entry(fds[k], ss[k]))
  }

  /** A table after start-up and any adds and removes that spare entry 0. */
  predicate ValidEntries(es: seq<Entry>) {
    && 0 < |es| && es[0].session == null
    && (forall k :: 1 <= k < |es| ==>
          es[k].session != null && es[k].session.sockfd == es[k].poll.fd && es[k].poll.events == POLLIN)
    && (forall j, k :: 0 <= j < k < |es| ==> es[j].poll.fd != es[k].poll.fd)
  }

  function Without(es: seq<Entry>, index: int): seq<Entry> {
    if 0 <= index < |es| then es[..index] + es[index + 1..] else es
  }

  lemma ZipWithout(fds: seq<PollFd>, ss: seq<Session?>, index: nat, fds': seq<PollFd>, ss': seq<Session?>)
    requires index < |fds| == |ss| && |fds'| == |ss'| == |fds| - 1
    requires forall k :: 0 <= k < |fds'| ==> fds'[k] == fds[if index <= k then k + 1 else k]
    requires forall k :: 0 <= k < |ss'| ==> ss'[k] == ss[if index <= k then k + 1 else k]
    ensures Zip(fds', ss') == Without(Zip(fds, ss), index)
  {
  }

  lemma WithoutValid(es: seq<Entry>, index: int)
    requires ValidEntries(es) && index != 0
    ensures ValidEntries(Without(es, index))
  {
  }

  /** The abstract table: each connected descriptor and its session. */
  function SessionOf(es: seq<Entry>): map<int, Session?> {
    if |es| <= 1 then map[]
    else var e := es[|es| - 1]; SessionOf(es[..|es| - 1])[e.poll.fd := e.session]
  }

  lemma ValidPrefix(es: seq<Entry>, n: nat)
    requires ValidEntries(es) && 0 < n <= |es|
    ensures ValidEntries(es[..n])
  {
  }

  lemma {:induction false} EntryInMap(es: seq<Entry>, k: nat)
    requires ValidEntries(es) && 1 <= k < |es|
    ensures es[k].poll.fd in SessionOf(es) && SessionOf(es)[es[k].poll.fd] == es[k].session
  {
    var n := |es| - 1;
    if k < n {
      ValidPrefix(es, n);
      EntryInMap(es[..n], k);
    }
  }

  lemma {:induction false} MapFromEntry(es: seq<Entry>, fd: int) returns (k: nat)
    requires fd in SessionOf(es)
    ensures 1 <= k < |es| && es[k].poll.fd == fd
  {
    var n := |es| - 1;
    if es[n].poll.fd == fd {
      k := n;
    } else {
      k := MapFromEntry(es[..n], fd);
    }
  }

  /** Adding an entry with a new descriptor extends the map. */
  lemma AddToMap(es: seq<Entry>, e: Entry)
    requires ValidEntries(es) && ValidEntries(es + [e])
    ensures SessionOf(es + [e]) == SessionOf(es)[e.poll.fd := e.session]
    ensures e.poll.fd !in SessionOf(es)
  {
    var es' := es + [e];
    assert es'[..|es|] == es && es'[|es|] == e;
    assert forall k :: 0 <= k < |es| ==> es'[k] == es[k];
    if e.poll.fd in SessionOf(es) {
      var k := MapFromEntry(es, e.poll.fd);
    }
  }

  lemma WithoutAt(es: seq<Entry>, index: nat, k: nat)
    requires index < |es| && k < |es| - 1
    ensures |Without(es, index)| == |es| - 1
    ensures Without(es, index)[k] == es[if k < index then k else k + 1]
  {
  }

  /** An entry that two tables share is mapped alike by both. */
  lemma SharedEntry(es: seq<Entry>, j: nat, es': seq<Entry>, k: nat)
    requires ValidEntries(es) && ValidEntries(es') && 1 <= j < |es| && 1 <= k < |es'| && es[j] == es'[k]
    ensures var fd := es[j].poll.fd;
            fd in SessionOf(es) && fd in SessionOf(es') && SessionOf(es)[fd] == SessionOf(es')[fd]
  {
    EntryInMap(es, j);
    EntryInMap(es', k);
  }

  lemma OthersStay(es: seq<Entry>, es': seq<Entry>, index: nat, fd: int)
    requires ValidEntries(es) && 1 <= index < |es| && ValidEntries(es') && es' == Without(es, index)
    requires fd in SessionOf(es) && fd != es[index].poll.fd
    ensures fd in SessionOf(es') && SessionOf(es')[fd] == SessionOf(es)[fd]
  {
    var j := MapFromEntry(es, fd);
    var k := if j < index then j else j - 1;
    WithoutAt(es, index, k);
    SharedEntry(es, j, es', k);
  }

  lemma NothingNew(es: seq<Entry>, es': seq<Entry>, index: nat, fd: int)
    requires ValidEntries(es) && 1 <= index < |es| && ValidEntries(es') && es' == Without(es, index)
    requires fd in SessionOf(es')
    ensures fd in SessionOf(es) && fd != es[index].poll.fd
  {
    var k := MapFromEntry(es', fd);
    WithoutAt(es, index, k);
    SharedEntry(es, if k < index then k else k + 1, es', k);
  }

  /** Removing an entry removes its descriptor from the map and nothing else. */
  lemma RemoveFromMap(es: seq<Entry>, index: nat)
    requires ValidEntries(es) && 1 <= index < |es|
    ensures SessionOf(Without(es, index)) == SessionOf(es) - {es[index].poll.fd}
  {
    WithoutValid(es, index);
    var es' := Without(es, index);
    var m', m := SessionOf(es'), SessionOf(es) - {es[index].poll.fd};
    forall fd
      ensures fd in m' <==> fd in m
      ensures fd in m' ==> m'[fd] == m[fd]
    {
      if fd in m {
        OthersStay(es, es', index, fd);
      }
      if fd in m' {
        NothingNew(es, es', index, fd);
      }
    }
  }

  /** The scan of find_session_by_sockfd over the entries. */
  function Lookup(es: seq<Entry>, fd: int): Session? {
    if es == [] then null
    else if es[0].session != null && es[0].session.sockfd == fd then es[0].session
    else Lookup(es[1..], fd)
  }

  lemma {:induction false} LookupFirst(es: seq<Entry>, fd: int, k: nat)
    requires forall j :: 0 <= j < k && j < |es| ==> es[j].session == null || es[j].session.sockfd != fd
    requires k <= |es| && (k < |es| ==> es[k].session != null && es[k].session.sockfd == fd)
    ensures Lookup(es, fd) == if k < |es| then es[k].session else null
  {
    if k > 0 {
      LookupFirst(es[1..], fd, k - 1);
    }
  }

  /** Lookup agrees with the map. */
  lemma LookupIsMap(es: seq<Entry>, fd: int)
    requires ValidEntries(es)
    ensures Lookup(es, fd) == if fd in SessionOf(es) then SessionOf(es)[fd] else null
  {
    if fd in SessionOf(es) {
      var k := MapFromEntry(es, fd);
      EntryInMap(es, k);
      LookupFirst(es, fd, k);
    } else {
      forall j | 1 <= j < |es|
        ensures es[j].poll.fd != fd
      {
        EntryInMap(es, j);
      }
      LookupFirst(es, fd, |es|);
    }
  }

  // ----- the globals -----

  /** What add_to_poll comes to. `NoSlot`: the table is full and did not grow, which the
      source does not look at; nothing behind that point is modelled. */
  datatype AddResult = Added(session: Session) | Refused | NoSlot

  /** Which of the allocations of one add_to_poll succeed. */
  datatype Memory = Memory(pollFds: bool, sessions: bool, session: bool)

  /** Both arrays can grow. */
  predicate CanGrow(m: Memory) {
    m.pollFds && m.sessions
  }

  /** realloc: null when there is no memory; what follows the old elements is unknown. */
  method Realloc<T(0)>(a: array<T>, used: nat, newSize: nat, enough: bool) returns (b: array?<T>)
    requires used <= a.Length && used <= newSize
    ensures b != null <==> enough
    ensures b != null ==> fresh(b) && b.Length == newSize && b[..used] == a[..used]
  {
    if !enough {
      return null;
    }
    b := new T[newSize];
    var i := 0;
    while i < used
      invariant 0 <= i <= used
      invariant b[..i] == a[..i]
    {
      b[i] := a[i];
      i := i + 1;
    }
  }

  class Table {
    var pollFds: array<PollFd>
    var sessions: array<Session?>
    var pollSize: nat
    var pollCount: nat
    var activeConnections: int
    ghost var ops: seq<Op>
    ghost function Entries(): (es: seq<Entry>)
      requires pollCount <= pollFds.Length && pollCount <= sessions.Length
      reads `pollFds, `sessions, `pollCount, pollFds, sessions
      ensures |es| == pollCount
    {
      Zip(pollFds[..pollCount], sessions[..pollCount])
    }

    ghost predicate Valid()
      reads this, pollFds, sessions
    {
      && sessions.Length == pollSize <= pollFds.Length <= 2 * pollSize
      && (var c := AfterOps(ops); pollSize == c.size && pollCount == c.count)
      && pollCount <= pollSize
      && ValidEntries(Entries())
      && activeConnections == pollCount - 1
    }

    /** The start-up part of main. */
    constructor (listenSock: int)
      ensures Valid() && fresh(pollFds) && fresh(sessions)
      ensures Entries() == [Entry(PollFd(listenSock, POLLIN), null)] && ops == []
    {
      pollSize := INITIAL_POLL_SIZE;
      pollFds := new PollFd[INITIAL_POLL_SIZE](_ => PollFd(-1, 0));
      sessions := new Session?[INITIAL_POLL_SIZE](_ => null);
      pollCount, activeConnections, ops := 1, 0, [];
      new;
      pollFds[0] := PollFd(listenSock, POLLIN);
    }

    /** expand_poll_arrays: both arrays move to twice the size and the new slots are
        cleared. Without memory for both nothing counts as grown, even if the first of
        them is the longer one by then. */
    method ExpandPollArrays(m: Memory) returns (grown: bool)
      requires sessions.Length == pollSize <= pollFds.Length <= 2 * pollSize
      modifies this`pollFds, this`sessions, this`pollSize
      ensures pollFds == old(pollFds) || (fresh(pollFds) && pollFds.Length == 2 * old(pollSize))
      ensures pollFds[..old(pollSize)] == old(pollFds[..pollSize])
      ensures grown <==> CanGrow(m)
      ensures grown ==>
                && fresh(pollFds) && fresh(sessions)
                && pollFds.Length == sessions.Length == pollSize == 2 * old(pollSize)
                && sessions[..old(pollSize)] == old(sessions[..])
                && forall i :: old(pollSize) <= i < pollSize ==> pollFds[i] == PollFd(-1, 0) && sessions[i] == null
      ensures !grown ==> pollSize == old(pollSize) && sessions == old(sessions)
    {
      var newSize := pollSize * 2;
      var newPollFds := Realloc(pollFds, pollSize, newSize, m.pollFds);
      if newPollFds == null {
        return false;
      }
      pollFds := newPollFds;
      var newSessions := Realloc(sessions, pollSize, newSize, m.sessions);
      if newSessions == null {
        return false;
      }
      sessions := newSessions;
      forall i | pollSize <= i < newSize {
        sessions[i] := null;
      }
      forall i | pollSize <= i < newSize {
        pollFds[i] := PollFd(-1, 0);
      }
      pollSize := newSize;
      grown := true;
    }

    /** Between the growing and the filling of a slot. */
    ghost predicate Prepared(grown: bool)
      reads this, pollFds, sessions
    {
      && sessions.Length == pollSize <= pollFds.Length <= 2 * pollSize
      && (var c := AfterOps(ops);
          && pollSize == (if grown then 2 * c.size else c.size) && pollCount == c.count <= pollSize
          && (grown ==> c.count >= c.size))
      && ValidEntries(Entries())
      && activeConnections == pollCount - 1
    }

    /** A table without a free slot grows. */
    method MakeRoom(m: Memory) returns (grown: bool)
      requires Valid()
      modifies this`pollFds, this`sessions, this`pollSize
      ensures Prepared(grown) && Entries() == old(Entries())
      ensures grown <==> old(pollCount) == old(pollSize) && CanGrow(m)
      ensures pollSize == if grown then 2 * old(pollSize) else old(pollSize)
      ensures pollFds == old(pollFds) || fresh(pollFds)
      ensures sessions == old(sessions) || fresh(sessions)
    {
      ghost var k := GrowthBound(ops);
      ghost var fds, ss := pollFds[..pollCount], sessions[..pollCount];
      grown := false;
      if pollCount >= pollSize {
        grown := ExpandPollArrays(m);
      }
      assert pollFds[..pollCount] == fds && sessions[..pollCount] == ss;
    }

    /** Position poll_count of both arrays is filled. */
    method Append(poll: PollFd, session: Session)
      requires pollCount < pollFds.Length && pollCount < sessions.Length
      modifies this`pollCount, this`activeConnections, pollFds, sessions
      ensures pollCount == old(pollCount) + 1 && activeConnections == old(activeConnections) + 1
      ensures Entries() == old(Entries()) + [Entry(poll, session)]
    {
      ghost var es := Entries();
      pollFds[pollCount] := poll;
      sessions[pollCount] := session;
      pollCount := pollCount + 1;
      activeConnections := activeConnections + 1;
      assert Entries() == es + [Entry(poll, session)];
    }

    /** add_to_poll. With memory the table gains one entry at its end, and all others
        keep their place. Without memory for the session nothing changes but perhaps the
        capacity. A full table that does not grow has no slot to fill. */
    method AddToPoll(sockfd: int, ip: string, port: int, m: Memory) returns (r: AddResult)
      requires Valid()
      requires forall e :: e in Entries() ==> e.poll.fd != sockfd
      modifies this, pollFds, sessions
      ensures Valid()
      ensures var full := old(pollCount) == old(pollSize);
              && (r.Added? <==> m.session && (!full || CanGrow(m)))
              && (r.Refused? <==> !m.session)
              && (r.NoSlot? <==> m.session && full && !CanGrow(m))
              && (r.Refused? ==> ops == old(ops) + [Refuse(full && CanGrow(m))])
      ensures r.Added? ==>
                && fresh(r.session) && r.session.sockfd == sockfd
                && r.session.clientIp == ip && r.session.clientPort == port
                && !r.session.loggedIn && r.session.username == "" && r.session.active && r.session.leftoverLen == 0
                && Entries() == old(Entries()) + [Entry(PollFd(sockfd, POLLIN), r.session)]
                && activeConnections == old(activeConnections) + 1 && ops == old(ops) + [Add]
      ensures !r.Added? ==> Entries() == old(Entries()) && activeConnections == old(activeConnections)
      ensures r.NoSlot? ==> pollSize == old(pollSize) && ops == old(ops)
    {
      ghost var k := GrowthBound(ops);
      var grown := MakeRoom(m);
      if !m.session {
        OpsAppend(ops, Refuse(grown));
        ops := ops + [Refuse(grown)];
        return Refused;
      }
      var session := new Session(sockfd, ip, port);
      if pollCount >= pollSize {
        return NoSlot;
      }
      Insert(session, grown);
      r := Added(session);
    }

    /** The session of a new connection enters the table. */
    method Insert(session: Session, ghost grown: bool)
      requires Prepared(grown) && pollCount < pollSize
      requires forall e :: e in Entries() ==> e.poll.fd != session.sockfd
      modifies this, pollFds, sessions
      ensures Valid() && ops == old(ops) + [Add]
      ensures Entries() == old(Entries()) + [Entry(PollFd(session.sockfd, POLLIN), session)]
      ensures activeConnections == old(activeConnections) + 1
    {
      hide ValidEntries;
      AppendValid(Entries(), Entry(PollFd(session.sockfd, POLLIN), session));
      OpsAppend(ops, Add);
      Append(PollFd(session.sockfd, POLLIN), session);
      ops := ops + [Add];
    }

    /** remove_from_poll: the entries behind the removed one move up; an index outside
        the table changes nothing. Only entry 0, which main never removes, is one the
        table cannot do without. */
    method RemoveFromPoll(index: int)
      requires Valid()
      modifies this`pollCount, this`activeConnections, this`ops, pollFds, sessions
      ensures pollCount <= sessions.Length && pollCount <= pollFds.Length
      ensures Entries() == Without(old(Entries()), index)
      ensures index != 0 ==> Valid()
      ensures activeConnections == old(activeConnections) - if 0 <= index < old(pollCount) then 1 else 0
      ensures ops == old(ops) + if 0 <= index < old(pollCount) then [Remove] else []
    {
      ghost var es := Entries();
      if index < 0 || index >= pollCount {
        return;
      }
      OpsAppend(ops, Remove);
      if index != 0 {
        WithoutValid(es, index);
      }
      ShiftDown(index);
      activeConnections := activeConnections - 1;
      ops := ops + [Remove];
    }

    /** The shifting loop. */
    method ShiftDown(index: nat)
      requires index < pollCount <= sessions.Length && pollCount <= pollFds.Length
      modifies this`pollCount, pollFds, sessions
      ensures pollCount == old(pollCount) - 1
      ensures Entries() == Without(old(Entries()), index)
    {
      ghost var fds, ss := pollFds[..pollCount], sessions[..pollCount];
      var i := index;
      while i < pollCount - 1
        invariant index <= i < pollCount == old(pollCount)
        invariant forall k :: 0 <= k < pollCount ==> pollFds[k] == fds[if index <= k < i then k + 1 else k]
        invariant forall k :: 0 <= k < pollCount ==> sessions[k] == ss[if index <= k < i then k + 1 else k]
      {
        pollFds[i] := pollFds[i + 1];
        sessions[i] := sessions[i + 1];
        i := i + 1;
      }
      pollCount := pollCount - 1;
      ZipWithout(fds, ss, index, pollFds[..pollCount], sessions[..pollCount]);
    }

    /** find_session_by_sockfd: the session the abstract table has for the descriptor. */
    method FindSessionBySockfd(sockfd: int) returns (s: Session?)
      requires Valid()
      ensures s == if sockfd in SessionOf(Entries()) then SessionOf(Entries())[sockfd] else null
    {
      ghost var es := Entries();
      LookupIsMap(es, sockfd);
      var i := 0;
      while i < pollCount
        invariant 0 <= i <= pollCount
        invariant forall j :: 0 <= j < i ==> es[j].session == null || es[j].session.sockfd != sockfd
      {
        if sessions[i] != null && sessions[i].sockfd == sockfd {
          LookupFirst(es, sockfd, i);
          return sessions[i];
        }
        i := i + 1;
      }
      LookupFirst(es, sockfd, |es|);
      return null;
    }
  }

  lemma AppendValid(es: seq<Entry>, e: Entry)
    requires ValidEntries(es)
    requires e.session != null && e.session.sockfd == e.poll.fd && e.poll.events == POLLIN
    requires forall k :: 0 <= k < |es| ==> es[k].poll.fd != e.poll.fd
    ensures ValidEntries(es + [e])
  {
  }
}
