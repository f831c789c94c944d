/** The concurrent login server of HW7/TCP-multithread-main: one handler thread per
    connection, one shared slot table. A step is a critical section of the session
    mutex, a send, or a system call; handlers interleave freely. */
module LoginServer {
  import opened EventLog
  import opened Sessions
  import opened Wrappers

  /** Where a handler thread is: `Answering` has left the critical section of a
      command and has not sent the reply, `Leaving` has ended the receive loop. */
  datatype Pc = Starting | Serving | Answering(reply: Event) | Leaving | Closing | Rejected | Closed

  /** `slot` is the thread's session_idx. */
  datatype Handler = Handler(fd: int, pc: Pc, slot: int, local: Local)

  /** `open` are the open descriptors of the process. History variables: `owner[k]`
      is the handler whose add_session took slot k last, `decided` the events in the
      order of their critical sections, `sent` the replies in the order of send and,
      among them, the ends of the sessions. */
  datatype State = State(
    users: seq<User>, sessions: seq<Session>, open: set<int>, handlers: seq<Handler>,
    owner: seq<int>, decided: seq<Event>, sent: seq<Event>)

  datatype Action =
    | Accept(fd: int) | AddSession(c: nat) | Command(c: nat, req: Request) | Send(c: nat)
    | Hangup(c: nat) | RemoveSession(c: nat) | Close(c: nat)

  ghost predicate Init(s: State) {
    && ValidAccounts(s.users)
    && s.sessions == seq(MAX_SESSIONS, _ => Session(0, "", false, false))
    && s.handlers == [] && |s.owner| == MAX_SESSIONS
    && s.decided == [] && s.sent == []
  }

  predicate At(s: State, c: nat, pc: Pc) {
    c < |s.handlers| && s.handlers[c].pc == pc
  }

  /** accept returns a descriptor that is not open; each other step needs its
      handler to be at the right place. */
  predicate Enabled(s: State, a: Action) {
    match a
    case Accept(fd) => fd !in s.open
    case AddSession(c) => At(s, c, Starting)
    case Command(c, _) => At(s, c, Serving)
    case Send(c) => c < |s.handlers| && s.handlers[c].pc.Answering?
    case Hangup(c) => At(s, c, Serving)
    case RemoveSession(c) => At(s, c, Leaving)
    case Close(c) => At(s, c, Closing) || At(s, c, Rejected)
  }

  function Moved(s: State, c: nat, h: Handler): State
    requires c < |s.handlers|
  {
    s.(handlers := s.handlers[c := h])
  }

  function ReplyName(req: Request, code: int): string {
    if req.USER? && code == 110 then req.name else ""
  }

  function Step(s: State, a: Action): State
    requires Enabled(s, a)
  {
    match a
    case Accept(fd) =>
      s.(open := s.open + {fd}, handlers := s.handlers + [Handler(fd, Starting, -1, Local(false, -1))])
    case AddSession(c) =>
      var h, k := s.handlers[c], FreeSlot(s.sessions);
      if k == -1 then Moved(s, c, h.(pc := Rejected))
      else
        Moved(s, c, h.(pc := Serving, slot := k)).(
          sessions := WithSession(s.sessions, h.fd),
          owner := if k < |s.owner| then s.owner[k := c] else s.owner)
    case Command(c, req) =>
      var h := s.handlers[c];
      var out := Execute(req, h.local, s.users, h.fd, s.sessions);
      var e := Reply(c, out.code, ReplyName(req, out.code));
      Moved(s, c, h.(pc := Answering(e), local := out.local)).(
        sessions := out.sessions, decided := s.decided + [e])
    case Send(c) =>
      var h := s.handlers[c];
      Moved(s, c, h.(pc := Serving)).(sent := s.sent + [h.pc.reply])
    case Hangup(c) => Moved(s, c, s.handlers[c].(pc := Leaving))
    case RemoveSession(c) =>
      var h := s.handlers[c];
      Moved(s, c, h.(pc := Closing)).(
        sessions := WithoutSession(s.sessions, h.fd),
        decided := s.decided + [Gone(c)], sent := s.sent + [Gone(c)])
    case Close(c) =>
      var h := s.handlers[c];
      Moved(s, c, h.(pc := Closed)).(open := s.open - {h.fd})
  }

  // ----- the inductive invariant -----

  predicate Seated(h: Handler) {
    h.pc.Serving? || h.pc.Answering? || h.pc.Leaving?
  }

  /** remove_session runs before close, so the descriptor of a handler that is not
      closed cannot be given out again. */
  predicate SocketInv(s: State) {
    && (forall c :: 0 <= c < |s.handlers| && s.handlers[c].pc != Closed ==> s.handlers[c].fd in s.open)
    && (forall c, d :: 0 <= c < d < |s.handlers| && s.handlers[c].pc != Closed && s.handlers[d].pc != Closed ==>
          s.handlers[c].fd != s.handlers[d].fd)
  }

  /** Handlers that serve a connection and active slots correspond one to one, and
      the thread-local flag shadows the slot. */
  predicate SeatInv(s: State) {
    && |s.sessions| == |s.owner| == MAX_SESSIONS
    && (forall c :: 0 <= c < |s.handlers| && s.handlers[c].pc == Starting ==> !s.handlers[c].local.loggedIn)
    && (forall c :: 0 <= c < |s.handlers| && Seated(s.handlers[c]) ==> SeatOk(s, c))
    && (forall k :: 0 <= k < MAX_SESSIONS && s.sessions[k].active ==>
          0 <= s.owner[k] < |s.handlers| && Seated(s.handlers[s.owner[k]]) && s.handlers[s.owner[k]].slot == k)
  }

  predicate SeatOk(s: State, c: nat)
    requires c < |s.handlers| && |s.sessions| == |s.owner| == MAX_SESSIONS
  {
    var h := s.handlers[c];
    && 0 <= h.slot < MAX_SESSIONS && s.owner[h.slot] == c
    && OnSocket(s.sessions[h.slot], h.fd)
    && s.sessions[h.slot].loggedIn == h.local.loggedIn
    && (h.local.loggedIn ==>
          var x := h.local.userIndex;
          && 0 <= x < |s.users| && s.users[x].status != 0
          && x == FindUser(s.sessions[h.slot].username, s.users))
  }

  predicate Holds(x: Session) {
    x.active && x.loggedIn
  }

  /** No account is logged in on two connections. */
  predicate UniqueLogins(ss: seq<Session>) {
    forall i, j :: 0 <= i < j < |ss| && Holds(ss[i]) && Holds(ss[j]) ==> ss[i].username != ss[j].username
  }

  /** The user connection `c` is logged in as, read off the table. */
  function Current(s: State, c: nat): Option<string> {
    if c < |s.handlers| && Seated(s.handlers[c]) && s.handlers[c].local.loggedIn
       && 0 <= s.handlers[c].slot < |s.sessions|
    then Some(s.sessions[s.handlers[c].slot].username) else None
  }

  ghost predicate HistoryInv(s: State) {
    && LogOk(s.decided)
    && (forall c: nat :: Holder(s.decided, c) == Current(s, c))
    && (forall c: nat :: GoneIn(s.decided, c) ==>
          c < |s.handlers| && (s.handlers[c].pc == Closing || s.handlers[c].pc == Closed))
  }

  /** Decided and not yet sent. */
  function Pending(s: State, c: nat): seq<Event> {
    if c < |s.handlers| && s.handlers[c].pc.Answering? then [s.handlers[c].pc.reply] else []
  }

  ghost predicate SendInv(s: State) {
    && (forall c: nat :: Replies(s.decided, c) == Replies(s.sent, c) + Pending(s, c))
    && (forall c: nat :: GoneIn(s.sent, c) <==> GoneIn(s.decided, c))
    && (forall c: nat :: GoneIn(s.sent, c) ==> Holder(s.sent, c) == None)
    && (forall c: nat :: |s.handlers| <= c ==> Replies(s.sent, c) == [])
    && (forall c: nat :: c < |s.handlers| && s.handlers[c].pc.Answering? ==>
          s.handlers[c].pc.reply.Reply? && s.handlers[c].pc.reply.conn == c)
  }

  ghost predicate Inv(s: State) {
    && ValidAccounts(s.users) && SocketInv(s) && SeatInv(s) && UniqueLogins(s.sessions)
    && HistoryInv(s) && SendInv(s)
  }

  lemma InitInv(s: State)
    requires Init(s)
    ensures Inv(s)
  {
  }

  lemma TableDistinct(s: State)
    requires SocketInv(s) && SeatInv(s)
    ensures DistinctSockets(s.sessions)
  {
    forall i, j | 0 <= i < j < MAX_SESSIONS && s.sessions[i].active && s.sessions[j].active
      ensures s.sessions[i].sockfd != s.sessions[j].sockfd
    {
      var c, d := s.owner[i], s.owner[j];
      assert SeatOk(s, c) && SeatOk(s, d);
    }
  }

  /** The table lookup by descriptor finds the handler's own slot. */
  lemma SeatFound(s: State, c: nat)
    requires SocketInv(s) && SeatInv(s) && c < |s.handlers| && Seated(s.handlers[c])
    ensures FindSession(s.sessions, s.handlers[c].fd) == s.handlers[c].slot
  {
    TableDistinct(s);
    assert SeatOk(s, c);
    FindSessionUnique(s.sessions, s.handlers[c].slot);
  }

  // ----- every step keeps the invariant -----

  /** A step that leaves the table and the histories alone, and moves one handler
      between program points without changing its seat. */
  predicate SameSeats(s: State, s': State) {
    && s'.users == s.users && s'.sessions == s.sessions && s'.owner == s.owner && s'.decided == s.decided
    && |s.handlers| <= |s'.handlers|
    && (forall d :: 0 <= d < |s.handlers| ==>
          && Seated(s'.handlers[d]) == Seated(s.handlers[d])
          && (Seated(s.handlers[d]) ==>
                s'.handlers[d] == s.handlers[d].(pc := s'.handlers[d].pc)))
    && (forall d :: |s.handlers| <= d < |s'.handlers| ==> !Seated(s'.handlers[d]))
    && (forall d :: 0 <= d < |s'.handlers| && s'.handlers[d].pc == Starting ==> !s'.handlers[d].local.loggedIn)
  }

  lemma SameSeatsInv(s: State, s': State)
    requires SeatInv(s) && UniqueLogins(s.sessions) && SameSeats(s, s')
    ensures SeatInv(s') && UniqueLogins(s'.sessions)
    ensures forall c: nat :: Current(s', c) == Current(s, c)
  {
    forall d | 0 <= d < |s'.handlers| && Seated(s'.handlers[d])
      ensures SeatOk(s', d)
    {
      assert SeatOk(s, d);
    }
  }

  lemma AcceptInv(s: State, fd: int)
    requires Inv(s) && Enabled(s, Accept(fd))
    ensures Inv(Step(s, Accept(fd)))
  {
    var s' := Step(s, Accept(fd));
    SameSeatsInv(s, s');
    assert forall d: nat :: Pending(s', d) == Pending(s, d);
  }

  lemma AddSessionInv(s: State, c: nat)
    requires Inv(s) && Enabled(s, AddSession(c))
    ensures Inv(Step(s, AddSession(c)))
  {
    var s' := Step(s, AddSession(c));
    AddSeats(s, c);
    assert forall d: nat :: Pending(s', d) == Pending(s, d);
  }

  lemma AddSeats(s: State, c: nat)
    requires Inv(s) && Enabled(s, AddSession(c))
    ensures var s' := Step(s, AddSession(c));
            && SeatInv(s') && UniqueLogins(s'.sessions) && SocketInv(s')
            && (forall d: nat :: Current(s', d) == Current(s, d))
  {
    hide HistoryInv, SendInv;
    var s' := Step(s, AddSession(c));
    if FreeSlot(s.sessions) == -1 {
      SameSeatsInv(s, s');
    } else {
      NewSeat(s, c);
      forall d: nat
        ensures Current(s', d) == Current(s, d)
      {
        if d < |s.handlers| && d != c && Seated(s.handlers[d]) {
          assert SeatOk(s, d);
        }
      }
    }
  }

  lemma NewSeat(s: State, c: nat)
    requires SocketInv(s) && SeatInv(s) && Enabled(s, AddSession(c)) && FreeSlot(s.sessions) != -1
    ensures SeatInv(Step(s, AddSession(c)))
  {
    var s' := Step(s, AddSession(c));
    forall d | 0 <= d < |s'.handlers| && Seated(s'.handlers[d])
      ensures SeatOk(s', d)
    {
      if d != c {
        assert SeatOk(s, d);
      }
    }
  }

  lemma SendStepInv(s: State, c: nat)
    requires Inv(s) && Enabled(s, Send(c))
    ensures Inv(Step(s, Send(c)))
  {
    hide UniqueLogins, LogOk;
    var s' := Step(s, Send(c));
    SameSeatsInv(s, s');
    forall d: nat
      ensures Replies(s'.decided, d) == Replies(s'.sent, d) + Pending(s', d)
      ensures |s'.handlers| <= d ==> Replies(s'.sent, d) == []
      ensures GoneIn(s'.sent, d) <==> GoneIn(s'.decided, d)
      ensures GoneIn(s'.sent, d) ==> Holder(s'.sent, d) == None
    {
      RepliesAppend(s.sent, s.handlers[c].pc.reply, d);
      GoneAppend(s.sent, s.handlers[c].pc.reply, d);
      HolderAppend(s.sent, s.handlers[c].pc.reply, d);
      assert Replies(s.decided, d) == Replies(s.sent, d) + Pending(s, d);
    }
  }

  lemma HangupInv(s: State, c: nat)
    requires Inv(s) && Enabled(s, Hangup(c))
    ensures Inv(Step(s, Hangup(c)))
  {
    hide UniqueLogins, LogOk;
    var s' := Step(s, Hangup(c));
    SameSeatsInv(s, s');
    assert forall d: nat :: Pending(s', d) == Pending(s, d);
  }

  lemma CloseInv(s: State, c: nat)
    requires Inv(s) && Enabled(s, Close(c))
    ensures Inv(Step(s, Close(c)))
  {
    hide UniqueLogins, LogOk;
    var s' := Step(s, Close(c));
    SameSeatsInv(s, s');
    assert forall d: nat :: Pending(s', d) == Pending(s, d);
  }

  lemma RemoveSessionInv(s: State, c: nat)
    requires Inv(s) && Enabled(s, RemoveSession(c))
    ensures Inv(Step(s, RemoveSession(c)))
  {
    RemoveSeats(s, c);
    RemoveHistory(s, c);
    RemoveSends(s, c);
  }

  lemma RemoveSends(s: State, c: nat)
    requires SendInv(s) && Enabled(s, RemoveSession(c))
    ensures SendInv(Step(s, RemoveSession(c)))
  {
    var s' := Step(s, RemoveSession(c));
    var e := Gone(c);
    assert s'.decided == s.decided + [e] && s'.sent == s.sent + [e];
    hide Replies, Holder, GoneIn, WithoutSession;
    forall d: nat
      ensures Replies(s'.decided, d) == Replies(s'.sent, d) + Pending(s', d)
      ensures |s'.handlers| <= d ==> Replies(s'.sent, d) == []
      ensures GoneIn(s'.sent, d) <==> GoneIn(s'.decided, d)
      ensures GoneIn(s'.sent, d) ==> Holder(s'.sent, d) == None
    {
      RepliesAppend(s.decided, e, d);
      RepliesAppend(s.sent, e, d);
      GoneAppend(s.decided, e, d);
      GoneAppend(s.sent, e, d);
      HolderAppend(s.sent, e, d);
      assert Replies(s.decided, d) == Replies(s.sent, d) + Pending(s, d);
    }
  }

  lemma RemoveHistory(s: State, c: nat)
    requires Inv(s) && Enabled(s, RemoveSession(c))
    ensures HistoryInv(Step(s, RemoveSession(c)))
  {
    RemoveSeats(s, c);
    forall d: nat
      ensures Holder(s.decided + [Gone(c)], d) == if d == c then None else Current(s, d)
      ensures GoneIn(s.decided + [Gone(c)], d) <==> GoneIn(s.decided, d) || d == c
    {
      GoneAppend(s.decided, Gone(c), d);
      HolderAppend(s.decided, Gone(c), d);
    }
    LogOkAppend(s.decided, Gone(c));
  }

  lemma RemoveSeats(s: State, c: nat)
    requires Inv(s) && Enabled(s, RemoveSession(c))
    ensures var s' := Step(s, RemoveSession(c));
            && SeatInv(s') && UniqueLogins(s'.sessions)
            && (forall d: nat :: Current(s', d) == if d == c then None else Current(s, d))
  {
    hide HistoryInv, SendInv;
    var s' := Step(s, RemoveSession(c));
    SeatFound(s, c);
    assert SeatOk(s, c);
    forall d: nat
      ensures d < |s'.handlers| && Seated(s'.handlers[d]) ==> SeatOk(s', d)
      ensures Current(s', d) == if d == c then None else Current(s, d)
    {
      if d < |s.handlers| && Seated(s.handlers[d]) {
        assert SeatOk(s, d);
      }
    }
  }

  // ----- commands -----

  lemma CommandOwnSeat(s: State, c: nat, req: Request)
    requires Inv(s) && Enabled(s, Command(c, req))
    ensures var s' := Step(s, Command(c, req));
            && |s'.sessions| == |s'.owner| == MAX_SESSIONS && c < |s'.handlers| && SeatOk(s', c)
  {
    hide HistoryInv, SendInv;
    SeatFound(s, c);
    assert SeatOk(s, c);
  }

  /** A command changes the login state of its own slot only. */
  lemma CommandSeats(s: State, c: nat, req: Request)
    requires Inv(s) && Enabled(s, Command(c, req))
    ensures var s' := Step(s, Command(c, req)); SeatInv(s') && SocketInv(s')
  {
    hide HistoryInv, SendInv, UniqueLogins;
    var s' := Step(s, Command(c, req));
    var h := s.handlers[c];
    ExecuteKeepsOthers(req, h.local, s.users, h.fd, s.sessions);
    SeatFound(s, c);
    assert SeatOk(s, c);
    CommandOwnSeat(s, c, req);
    hide Execute;
    forall d | 0 <= d < |s'.handlers| && Seated(s'.handlers[d])
      ensures SeatOk(s', d)
    {
      assert SeatOk(s, d);
    }
  }

  /** What a command does to the login of every connection. */
  lemma CommandCurrent(s: State, c: nat, req: Request, d: nat)
    requires Inv(s) && Enabled(s, Command(c, req))
    ensures var h := s.handlers[c];
            var code := Execute(req, h.local, s.users, h.fd, s.sessions).code;
            Current(Step(s, Command(c, req)), d) ==
            if d == c && code == 110 && req.USER? then Some(req.name)
            else if d == c && code == 130 then None
            else Current(s, d)
  {
    var h := s.handlers[c];
    ExecuteKeepsOthers(req, h.local, s.users, h.fd, s.sessions);
    SeatFound(s, c);
    assert SeatOk(s, c);
    if d < |s.handlers| && d != c && Seated(s.handlers[d]) {
      assert SeatOk(s, d);
    }
  }

  /** The scan of the table sees exactly the other connections' logins. */
  lemma ElsewhereIsCurrent(s: State, c: nat, name: string)
    requires SocketInv(s) && SeatInv(s) && c < |s.handlers| && Seated(s.handlers[c])
    requires !s.handlers[c].local.loggedIn
    ensures LoggedInElsewhere(s.sessions, name, s.handlers[c].fd) <==> exists d: nat :: Current(s, d) == Some(name)
  {
    assert SeatOk(s, c);
    if LoggedInElsewhere(s.sessions, name, s.handlers[c].fd) {
      var k :| 0 <= k < MAX_SESSIONS && HasName(s.sessions[k], name, s.handlers[c].fd);
      assert SeatOk(s, s.owner[k]);
      assert Current(s, s.owner[k]) == Some(name);
    }
    if d: nat :| Current(s, d) == Some(name) {
      assert SeatOk(s, d);
      assert s.handlers[d].fd != s.handlers[c].fd;
      assert HasName(s.sessions[s.handlers[d].slot], name, s.handlers[c].fd);
    }
  }

  lemma CommandUnique(s: State, c: nat, req: Request)
    requires Inv(s) && Enabled(s, Command(c, req))
    ensures UniqueLogins(Step(s, Command(c, req)).sessions)
  {
    var h := s.handlers[c];
    SeatFound(s, c);
    assert SeatOk(s, c);
    TableDistinct(s);
    ExecuteUnique(req, h.local, s.users, h.fd, s.sessions);
  }

  /** The check and the update of a login are in one critical section. */
  lemma ExecuteUnique(req: Request, local: Local, users: seq<User>, fd: int, ss: seq<Session>)
    requires UniqueLogins(ss) && DistinctSockets(ss) && ValidAccounts(users)
    requires var k := FindSession(ss, fd); k >= 0 && ss[k].loggedIn == local.loggedIn
    ensures UniqueLogins(Execute(req, local, users, fd, ss).sessions)
  {
    var k := FindSession(ss, fd);
    ExecuteKeepsOthers(req, local, users, fd, ss);
    var out := Execute(req, local, users, fd, ss);
    if out.code == 110 {
      forall j | 0 <= j < |ss| && j != k && Holds(ss[j])
        ensures ss[j].username != req.name
      {
        assert !HasName(ss[j], req.name, fd);
      }
    }
  }

  /** The reply fits the history so far. */
  lemma CommandEvent(s: State, c: nat, req: Request)
    requires Inv(s) && Enabled(s, Command(c, req))
    ensures var h := s.handlers[c];
            var code := Execute(req, h.local, s.users, h.fd, s.sessions).code;
            EventOk(s.decided, Reply(c, code, ReplyName(req, code)))
  {
    var h := s.handlers[c];
    assert SeatOk(s, c);
    assert Holder(s.decided, c) == Current(s, c);
    if req.USER? && !h.local.loggedIn {
      ElsewhereIsCurrent(s, c, req.name);
      assert forall d: nat :: Holder(s.decided, d) == Current(s, d);
    }
  }

  /** The event of a command. */
  function CommandReply(s: State, c: nat, req: Request): Event
    requires Enabled(s, Command(c, req))
  {
    var h := s.handlers[c];
    var code := Execute(req, h.local, s.users, h.fd, s.sessions).code;
    Reply(c, code, ReplyName(req, code))
  }

  lemma CommandDecides(s: State, c: nat, req: Request)
    requires Enabled(s, Command(c, req))
    ensures var s' := Step(s, Command(c, req));
            && s'.decided == s.decided + [CommandReply(s, c, req)]
            && |s'.handlers| == |s.handlers|
            && forall d :: 0 <= d < |s.handlers| && d != c ==> s'.handlers[d] == s.handlers[d]
  {
  }

  lemma CommandHolder(s: State, c: nat, req: Request, d: nat)
    requires Inv(s) && Enabled(s, Command(c, req))
    ensures var s' := Step(s, Command(c, req));
            && Holder(s'.decided, d) == Current(s', d)
            && (GoneIn(s'.decided, d) <==> GoneIn(s.decided, d))
  {
    var e := CommandReply(s, c, req);
    CommandDecides(s, c, req);
    CommandCurrent(s, c, req, d);
    assert Holder(s.decided, d) == Current(s, d);
    hide Step, Execute, Current, Inv, Holder, GoneIn;
    GoneAppend(s.decided, e, d);
    HolderAppend(s.decided, e, d);
  }

  lemma CommandHistory(s: State, c: nat, req: Request)
    requires Inv(s) && Enabled(s, Command(c, req))
    ensures HistoryInv(Step(s, Command(c, req)))
  {
    CommandEvent(s, c, req);
    CommandDecides(s, c, req);
    assert HistoryInv(s) && s.handlers[c].pc == Serving;
    hide Step, Execute, Current, Inv, Holder, GoneIn, LogOk, EventOk;
    LogOkAppend(s.decided, CommandReply(s, c, req));
    forall d: nat
      ensures Holder(Step(s, Command(c, req)).decided, d) == Current(Step(s, Command(c, req)), d)
      ensures GoneIn(Step(s, Command(c, req)).decided, d) <==> GoneIn(s.decided, d)
    {
      CommandHolder(s, c, req, d);
    }
  }

  lemma CommandSends(s: State, c: nat, req: Request)
    requires Inv(s) && Enabled(s, Command(c, req))
    ensures SendInv(Step(s, Command(c, req)))
  {
    var s' := Step(s, Command(c, req));
    var e := s'.decided[|s.decided|];
    forall d: nat
      ensures Replies(s'.decided, d) == Replies(s'.sent, d) + Pending(s', d)
    {
      RepliesAppend(s.decided, e, d);
      assert Replies(s.decided, d) == Replies(s.sent, d) + Pending(s, d);
    }
  }

  lemma CommandInv(s: State, c: nat, req: Request)
    requires Inv(s) && Enabled(s, Command(c, req))
    ensures Inv(Step(s, Command(c, req)))
  {
    CommandSeats(s, c, req);
    CommandUnique(s, c, req);
    CommandHistory(s, c, req);
    CommandSends(s, c, req);
  }

  lemma StepInv(s: State, a: Action)
    requires Inv(s) && Enabled(s, a)
    ensures Inv(Step(s, a))
  {
    match a
    case Accept(fd) => AcceptInv(s, fd);
    case AddSession(c) => AddSessionInv(s, c);
    case Command(c, req) => CommandInv(s, c, req);
    case Send(c) => SendStepInv(s, c);
    case Hangup(c) => HangupInv(s, c);
    case RemoveSession(c) => RemoveSessionInv(s, c);
    case Close(c) => CloseInv(s, c);
  }

  // ----- nothing gets stuck -----

  /** A handler that has not closed its connection can always go on, and while it serves
      it can take any command and any hang-up; and any descriptor that is not open may
      come with a new connection. */
  lemma HandlerMoves(s: State, c: nat, req: Request, fd: int)
    requires c < |s.handlers|
    ensures fd !in s.open ==> Enabled(s, Accept(fd))
    ensures match s.handlers[c].pc
            case Starting => Enabled(s, AddSession(c))
            case Serving => Enabled(s, Command(c, req)) && Enabled(s, Hangup(c))
            case Answering(_) => Enabled(s, Send(c))
            case Leaving => Enabled(s, RemoveSession(c))
            case Closed => true
            case _ => Enabled(s, Close(c))
  {
  }

  /** A closed descriptor may be given to the next connection, and no other that is in
      use is given up with it. */
  lemma ClosedIsReusable(s: State, c: nat)
    requires Inv(s) && Enabled(s, Close(c))
    ensures var s' := Step(s, Close(c));
            && Enabled(s', Accept(s.handlers[c].fd))
            && forall d :: 0 <= d < |s'.handlers| && d != c && s'.handlers[d].pc != Closed ==>
                 !Enabled(s', Accept(s'.handlers[d].fd))
  {
  }
}
