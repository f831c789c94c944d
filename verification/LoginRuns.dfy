/** What the login server promises over every interleaving of its handlers. */
module LoginRuns {
  import opened EventLog
  import opened LoginServer
  import opened Sessions
  import opened Wrappers

  predicate IsRun(states: seq<State>, acts: seq<Action>) {
    && |states| == |acts| + 1
    && forall k :: 0 <= k < |acts| ==> Enabled(states[k], acts[k]) && states[k + 1] == Step(states[k], acts[k])
  }

  ghost predicate RunOf(states: seq<State>, acts: seq<Action>) {
    IsRun(states, acts) && Init(states[0])
  }

  lemma {:induction false} RunInv(states: seq<State>, acts: seq<Action>, k: nat)
    requires RunOf(states, acts) && k < |states|
    ensures Inv(states[k])
  {
    if k == 0 {
      InitInv(states[0]);
    } else {
      RunInv(states, acts, k - 1);
      assert states[k] == Step(states[k - 1], acts[k - 1]);
      StepInv(states[k - 1], acts[k - 1]);
    }
  }

  /** In every reachable state no two active logged-in slots hold one name, and a
      descriptor belongs to at most one active slot. */
  lemma UniqueLogin(states: seq<State>, acts: seq<Action>, k: nat, i: nat, j: nat)
    requires RunOf(states, acts) && k < |states| && i < j < |states[k].sessions|
    ensures var ss := states[k].sessions;
            && (Holds(ss[i]) && Holds(ss[j]) ==> ss[i].username != ss[j].username)
            && (ss[i].active && ss[j].active ==> ss[i].sockfd != ss[j].sockfd)
  {
    RunInv(states, acts, k);
    TableDistinct(states[k]);
  }

  /** For a handler that serves its connection the lookup by descriptor finds its
      own slot, whose login flag is the thread's local flag and whose name is an
      account with its first entry not blocked. */
  lemma FlagShadowsTable(states: seq<State>, acts: seq<Action>, k: nat, c: nat)
    requires RunOf(states, acts) && k < |states|
    requires c < |states[k].handlers| && Seated(states[k].handlers[c])
    ensures var s := states[k]; var h := s.handlers[c];
            && FindSession(s.sessions, h.fd) == h.slot >= 0
            && s.sessions[h.slot].loggedIn == h.local.loggedIn
            && (h.local.loggedIn ==>
                  var name := s.sessions[h.slot].username;
                  Known(s.users, name) && !Blocked(s.users, name))
  {
    RunInv(states, acts, k);
    SeatFound(states[k], c);
    assert SeatOk(states[k], c);
  }

  // ----- histories -----

  /** Between a 110 for a user and the next 110 for it, whoever gets it, the first
      connection is answered 130 or ends. */
  lemma LoginIntervalsDisjoint(states: seq<State>, acts: seq<Action>)
    requires RunOf(states, acts)
    ensures Disjoint(states[|acts|].decided)
  {
    RunInv(states, acts, |acts|);
    DisjointIntervals(states[|acts|].decided);
  }

  /** On each connection the 110s exceed the 130s by 0 or 1, and 120 and 130 are
      answered only inside a login interval. */
  lemma RepliesInsideIntervals(states: seq<State>, acts: seq<Action>, c: nat)
    requires RunOf(states, acts)
    ensures var log := states[|acts|].decided;
            && 0 <= CountCode(log, c, 110) - CountCode(log, c, 130) <= 1
            && forall j :: 0 <= j < |log| && log[j].Reply? && log[j].code in {120, 130} ==>
                 exists i :: 0 <= i < j && Starts(log[i], log[j].conn) &&
                             forall k :: i < k < j ==> !Ends(log[k], log[j].conn)
  {
    RunInv(states, acts, |acts|);
    var log := states[|acts|].decided;
    LoginBalance(log, c);
    forall j | 0 <= j < |log| && log[j].Reply? && log[j].code in {120, 130}
      ensures exists i :: 0 <= i < j && Starts(log[i], log[j].conn) &&
                          forall k :: i < k < j ==> !Ends(log[k], log[j].conn)
    {
      InsideInterval(log, j);
    }
  }

  // ----- refinement of an abstract map -----

  predicate Known(users: seq<User>, name: string) {
    exists k :: 0 <= k < |users| && users[k].name == name
  }

  predicate IsFirst(users: seq<User>, name: string, k: nat) {
    k < |users| && users[k].name == name && forall j :: 0 <= j < k ==> users[j].name != name
  }

  /** The first entry of the name has status 0. */
  predicate Blocked(users: seq<User>, name: string) {
    exists k :: 0 <= k < |users| && IsFirst(users, name, k) && users[k].status == 0
  }

  /** The reply to a command, from the accounts and the map of who is logged in. */
  ghost function Decide(users: seq<User>, logins: map<nat, string>, c: nat, req: Request): int {
    match req
    case USER(name) =>
      if name == "" then 300
      else if c in logins then 213
      else if !Known(users, name) then 212
      else if Blocked(users, name) then 211
      else if name in logins.Values then 214
      else 110
    case POST(_) => if c in logins then 120 else 221
    case BYE => if c in logins then 130 else 221
    case Undefined => 300
  }

  ghost function LoginsAfter(logins: map<nat, string>, c: nat, req: Request, code: int): map<nat, string> {
    if code == 110 && req.USER? then logins[c := req.name]
    else if code == 130 then logins - {c}
    else logins
  }

  ghost function Logins(s: State): map<nat, string> {
    map c: nat | c < |s.handlers| && Current(s, c) != None :: Current(s, c).value
  }

  ghost predicate InjectiveMap(m: map<nat, string>) {
    forall c, d :: c in m && d in m && c != d ==> m[c] != m[d]
  }

  lemma CurrentDistinct(s: State, c: nat, d: nat)
    requires Inv(s) && c != d && Current(s, c) != None
    ensures Current(s, c) != Current(s, d)
  {
    assert SeatOk(s, c);
    if Current(s, d) != None {
      assert SeatOk(s, d);
    }
  }

  lemma LoginsInjective(s: State)
    requires Inv(s)
    ensures InjectiveMap(Logins(s))
  {
    forall c, d | c in Logins(s) && d in Logins(s) && c != d
      ensures Logins(s)[c] != Logins(s)[d]
    {
      CurrentDistinct(s, c, d);
    }
  }

  lemma FindUserDecides(users: seq<User>, name: string)
    ensures var k := FindUser(name, users);
            && (k == -1 <==> !Known(users, name))
            && (k >= 0 ==> (users[k].status == 0 <==> Blocked(users, name)))
  {
    var k := FindUser(name, users);
    if k >= 0 {
      assert IsFirst(users, name, k);
    }
  }

  lemma NameTaken(s: State, name: string)
    ensures name in Logins(s).Values <==> exists d: nat :: Current(s, d) == Some(name)
  {
    if d: nat :| Current(s, d) == Some(name) {
      assert d in Logins(s) && Logins(s)[d] == name;
    }
  }

  lemma DecideRefined(s: State, c: nat, req: Request)
    requires Inv(s) && Enabled(s, Command(c, req))
    ensures var h := s.handlers[c];
            Execute(req, h.local, s.users, h.fd, s.sessions).code == Decide(s.users, Logins(s), c, req)
  {
    assert c in Logins(s) <==> s.handlers[c].local.loggedIn by {
      assert SeatOk(s, c);
    }
    if req.USER? && !s.handlers[c].local.loggedIn {
      ElsewhereIsCurrent(s, c, req.name);
      NameTaken(s, req.name);
      FindUserDecides(s.users, req.name);
    }
  }

  lemma CommandLogin(s: State, c: nat, req: Request, d: nat)
    requires Inv(s) && Enabled(s, Command(c, req))
    ensures var m := LoginsAfter(Logins(s), c, req, CommandReply(s, c, req).code);
            var m' := Logins(Step(s, Command(c, req)));
            (d in m' <==> d in m) && (d in m ==> m'[d] == m[d])
  {
    CommandCurrent(s, c, req, d);
    CommandDecides(s, c, req);
    hide Step, Execute, Inv;
  }

  lemma CommandRefinesMap(s: State, c: nat, req: Request)
    requires Inv(s) && Enabled(s, Command(c, req))
    ensures Logins(Step(s, Command(c, req))) == LoginsAfter(Logins(s), c, req, CommandReply(s, c, req).code)
  {
    hide Step, Execute, Inv, Logins, LoginsAfter;
    var m := LoginsAfter(Logins(s), c, req, CommandReply(s, c, req).code);
    forall d: nat
      ensures d in Logins(Step(s, Command(c, req))) <==> d in m
      ensures d in m ==> Logins(Step(s, Command(c, req)))[d] == m[d]
    {
      CommandLogin(s, c, req, d);
    }
  }

  lemma RemovalRefinesMap(s: State, c: nat)
    requires Inv(s) && Enabled(s, RemoveSession(c))
    ensures Logins(Step(s, RemoveSession(c))) == Logins(s) - {c}
  {
    RemoveSeats(s, c);
    LoginsWithout(s, Step(s, RemoveSession(c)), c);
  }

  lemma LoginsWithout(s: State, s': State, c: nat)
    requires |s'.handlers| == |s.handlers|
    requires forall d: nat :: Current(s', d) == if d == c then None else Current(s, d)
    ensures Logins(s') == Logins(s) - {c}
  {
    forall d: nat
      ensures d in Logins(s') <==> d in Logins(s) - {c}
      ensures d in Logins(s') ==> Logins(s')[d] == Logins(s)[d]
    {
      assert Current(s', d) == if d == c then None else Current(s, d);
    }
  }

  /** The table with its thread-local flags refines an injective partial map from
      connections to names: every reply is the one the map and the account list
      determine, and only 110, 130 and the end of a session change the map. */
  lemma TableRefinesMap(s: State, a: Action)
    requires Inv(s) && Enabled(s, a)
    ensures InjectiveMap(Logins(s))
    ensures a.Command? ==>
              var code := Decide(s.users, Logins(s), a.c, a.req);
              && Step(s, a).decided == s.decided + [Reply(a.c, code, ReplyName(a.req, code))]
              && Logins(Step(s, a)) == LoginsAfter(Logins(s), a.c, a.req, code)
    ensures a.RemoveSession? ==> Logins(Step(s, a)) == Logins(s) - {a.c}
    ensures !a.Command? && !a.RemoveSession? ==> Logins(Step(s, a)) == Logins(s)
  {
    LoginsInjective(s);
    if a.Command? {
      DecideRefined(s, a.c, a.req);
      CommandRefinesMap(s, a.c, a.req);
    } else if a.RemoveSession? {
      RemovalRefinesMap(s, a.c);
    } else {
      OtherStepsKeepLogins(s, a);
    }
  }

  lemma OtherStepsKeepLogins(s: State, a: Action)
    requires Inv(s) && Enabled(s, a) && !a.Command? && !a.RemoveSession?
    ensures Logins(Step(s, a)) == Logins(s)
  {
    if a.AddSession? {
      AddSeats(s, a.c);
    } else {
      assert SameSeats(s, Step(s, a));
      SameSeatsInv(s, Step(s, a));
    }
    LoginsSame(s, Step(s, a));
  }

  lemma LoginsSame(s: State, s': State)
    requires |s.handlers| <= |s'.handlers|
    requires forall d: nat :: Current(s', d) == Current(s, d)
    ensures Logins(s') == Logins(s)
  {
    forall d: nat
      ensures d in Logins(s') <==> d in Logins(s)
      ensures d in Logins(s') ==> Logins(s')[d] == Logins(s)[d]
    {
      assert Current(s', d) == Current(s, d);
    }
  }

  // ----- the order in which replies are sent -----

  /** Each connection gets its replies in the order of the decisions; at most the
      last one is outstanding. */
  lemma RepliesInOrder(states: seq<State>, acts: seq<Action>, c: nat)
    requires RunOf(states, acts)
    ensures var s := states[|acts|];
            Replies(s.decided, c) == Replies(s.sent, c) + Pending(s, c)
  {
    RunInv(states, acts, |acts|);
  }

  /** The last reply decided on a live connection fits what came before it there. */
  lemma {:induction false} LastReplyOk(log: seq<Event>, c: nat, r: seq<Event>, e: Event)
    requires LogOk(log) && !GoneIn(log, c) && Replies(log, c) == r + [e] && e.conn == c && e.Reply?
    ensures e.code == 110 ==> Holder(r, c) == None
    ensures e.code == 130 ==> Holder(r, c) == LastLogin(log, c) != None
  {
    if log != [] {
      var n := |log| - 1;
      LogOkPrefix(log, n);
      assert forall x :: x in log[..n] ==> x in log;
      if log[n].Reply? && log[n].conn == c {
        assert EventOk(log[..n], log[n]);
        HolderOfReplies(log[..n], c);
        assert (r + [e])[..|r|] == r && (r + [e])[|r|] == e;
        assert Replies(log, c) == Replies(log[..n], c) + [log[n]];
        assert r == Replies(log[..n], c) && e == log[n];
        if e.code == 130 {
          HolderIsLastLogin(log[..n], c);
        }
      } else {
        LastReplyOk(log[..n], c, r, e);
      }
    }
  }

  predicate CodePending(s: State, c: nat, code: int) {
    var p := Pending(s, c);
    p != [] && p[0].Reply? && p[0].code == code
  }

  /** The connection's logout is decided, its 130 not yet sent. */
  predicate LogoutPending(s: State, c: nat) {
    CodePending(s, c, 130)
  }

  /** The user who is being logged out: that of the connection's last 110. */
  function LoggingOut(s: State, c: nat): Option<string> {
    if LogoutPending(s, c) then LastLogin(s.decided, c) else None
  }

  /** What every connection has been told, from the table and the pending reply: the
      table's entry, but nothing before its 110 is sent, and still the old user
      before its 130 is. */
  lemma ToldVersusTable(s: State, c: nat)
    requires Inv(s)
    ensures Holder(s.sent, c) ==
            if CodePending(s, c, 110) then None
            else if LogoutPending(s, c) then LoggingOut(s, c)
            else Current(s, c)
    ensures CodePending(s, c, 110) ==> Current(s, c) == Some(Pending(s, c)[0].name)
    ensures LogoutPending(s, c) ==> Current(s, c) == None && LoggingOut(s, c) != None
  {
    if GoneIn(s.decided, c) {
      assert Current(s, c) == None;
    } else {
      LiveToldVersusTable(s, c);
    }
  }

  lemma LiveToldVersusTable(s: State, c: nat)
    requires Inv(s) && !GoneIn(s.decided, c)
    ensures Holder(s.sent, c) ==
            if CodePending(s, c, 110) then None
            else if LogoutPending(s, c) then LoggingOut(s, c)
            else Current(s, c)
    ensures CodePending(s, c, 110) ==> Current(s, c) == Some(Pending(s, c)[0].name)
    ensures LogoutPending(s, c) ==> Current(s, c) == None && LoggingOut(s, c) != None
  {
    var p := Pending(s, c);
    HolderOfReplies(s.decided, c);
    assert !GoneIn(s.sent, c);
    HolderOfReplies(s.sent, c);
    assert Holder(s.decided, c) == Current(s, c);
    assert Replies(s.decided, c) == Replies(s.sent, c) + p;
    if p != [] {
      HolderAppend(Replies(s.sent, c), p[0], c);
      LastReplyOk(s.decided, c, Replies(s.sent, c), p[0]);
    } else {
      assert Replies(s.sent, c) + p == Replies(s.sent, c);
    }
  }

  /** Two connections have both been told they hold one user only while the logout of
      that user by one of them is decided and its 130 not yet sent. */
  lemma ToldOverlapNeedsPendingLogout(s: State, c: nat, d: nat, name: string)
    requires Inv(s) && c != d
    requires Holder(s.sent, c) == Some(name) && Holder(s.sent, d) == Some(name)
    ensures LoggingOut(s, c) == Some(name) || LoggingOut(s, d) == Some(name)
  {
    ToldVersusTable(s, c);
    ToldVersusTable(s, d);
    if !LogoutPending(s, c) && !LogoutPending(s, d) {
      CurrentDistinct(s, c, d);
    }
  }

  /** Sending a 110 makes two connections believe they hold the user exactly when the
      other one's logout of that user is decided and not yet sent. */
  lemma SendOverlapsIff(s: State, c: nat, d: nat)
    requires Inv(s) && c != d && CodePending(s, d, 110)
    ensures var name, sent := Pending(s, d)[0].name, Step(s, Send(d)).sent;
            Holder(sent, c) == Some(name) == Holder(sent, d) <==> LoggingOut(s, c) == Some(name)
  {
    var e := Pending(s, d)[0];
    HolderAppend(s.sent, e, c);
    HolderAppend(s.sent, e, d);
    ToldVersusTable(s, c);
    ToldVersusTable(s, d);
    if Holder(s.sent, c) == Some(e.name) && !LogoutPending(s, c) {
      CurrentDistinct(s, c, d);
    }
  }

  /** A 110 is about to be sent while another connection's logout of its user is
      decided and not yet sent. */
  ghost predicate LoginOvertakesLogout(s: State, d: nat) {
    CodePending(s, d, 110) && exists c: nat :: c != d && LoggingOut(s, c) == Some(Pending(s, d)[0].name)
  }

  lemma SendFreeIff(s: State, d: nat)
    requires Inv(s) && Enabled(s, Send(d))
    ensures var e := s.handlers[d].pc.reply;
            && e.Reply? && e.conn == d
            && (Starts(e, d) ==> Holder(s.sent, d) == None)
            && (NobodyHolds(s.sent, e) <==> !LoginOvertakesLogout(s, d))
  {
    var e := s.handlers[d].pc.reply;
    assert Pending(s, d) == [e];
    ToldVersusTable(s, d);
    if e.code == 110 {
      forall c: nat
        ensures Holder(s.sent, c) == Some(e.name) <==> c != d && LoggingOut(s, c) == Some(e.name)
      {
        if c != d {
          SendOverlapsIff(s, c, d);
          HolderAppend(s.sent, e, c);
          HolderAppend(s.sent, e, d);
        }
      }
    }
  }

  ghost predicate NoOvertaking(states: seq<State>, acts: seq<Action>, n: nat)
    requires n <= |acts| && n <= |states|
  {
    forall k :: 0 <= k < n && acts[k].Send? ==> !LoginOvertakesLogout(states[k], acts[k].c)
  }

  lemma {:induction false} SentUpTo(states: seq<State>, acts: seq<Action>, n: nat)
    requires RunOf(states, acts) && n <= |acts|
    ensures OneAtATime(states[n].sent)
    ensures FreeWhenStarted(states[n].sent) <==> NoOvertaking(states, acts, n)
  {
    if n > 0 {
      SentUpTo(states, acts, n - 1);
      RunInv(states, acts, n - 1);
      SentStep(states[n - 1], acts[n - 1]);
      assert states[n] == Step(states[n - 1], acts[n - 1]);
    }
  }

  lemma SentStep(s: State, a: Action)
    requires Inv(s) && Enabled(s, a) && OneAtATime(s.sent)
    ensures var sent := Step(s, a).sent;
            && OneAtATime(sent)
            && (FreeWhenStarted(sent) <==>
                  FreeWhenStarted(s.sent) && (a.Send? ==> !LoginOvertakesLogout(s, a.c)))
  {
    match a
    case Send(c) =>
      SendFreeIff(s, c);
      FreeAppend(s.sent, s.handlers[c].pc.reply);
    case RemoveSession(c) => FreeAppend(s.sent, Gone(c));
    case _ =>
  }

  /** In the order of the sends, the login intervals of a run are disjoint if and only
      if it never sends a 110 while another connection's logout of the same user is
      decided and its 130 not yet sent. */
  lemma SentIntervalsDisjointIff(states: seq<State>, acts: seq<Action>)
    requires RunOf(states, acts)
    ensures Disjoint(states[|acts|].sent) <==>
            forall k :: 0 <= k < |acts| && acts[k].Send? ==> !LoginOvertakesLogout(states[k], acts[k].c)
  {
    SentUpTo(states, acts, |acts|);
    DisjointIff(states[|acts|].sent);
  }

  /** Two handlers whose connections have just got their slots. */
  function DemoHandlers(): seq<Handler> {
    [Handler(4, Serving, 0, Local(false, -1)), Handler(5, Serving, 1, Local(false, -1))]
  }

  function DemoState(fds: set<int>, hs: seq<Handler>, a: Session, b: Session, owner: seq<int>,
                     decided: seq<Event>, sent: seq<Event>): State {
    State([User("a", 1)], [a, b] + seq(MAX_SESSIONS - 2, _ => Session(0, "", false, false)), fds, hs,
          owner, decided, sent)
  }

  lemma DemoCommand(s: State, c: nat, req: Request, hs: seq<Handler>, a: Session, b: Session, code: int)
    requires hs == s.handlers && c < |hs| <= 2 && Enabled(s, Command(c, req))
    requires s == DemoState(s.open, hs, a, b, s.owner, s.decided, s.sent)
    requires OnSocket(a, 4) && OnSocket(b, 5) && hs[c].fd == 4 + c && c < 2
    requires (req == USER("a") && !a.loggedIn && !b.loggedIn && !hs[c].local.loggedIn && code == 110)
             || (req == BYE && hs[c].local.loggedIn && code == 130)
    ensures var x := if req.BYE? then (if c == 0 then a else b).(loggedIn := false, username := "")
                     else (if c == 0 then a else b).(loggedIn := true, username := "a");
            var e := Reply(c, code, ReplyName(req, code));
            var h := hs[c].(pc := Answering(e), local := if req.BYE? then Local(false, -1) else Local(true, 0));
            Step(s, Command(c, req)) ==
            DemoState(s.open, hs[c := h], if c == 0 then x else a, if c == 0 then b else x, s.owner,
                      s.decided + [e], s.sent)
  {
    assert s.sessions[0] == a && s.sessions[1] == b;
    assert FindSession(s.sessions, 4 + c) == c;
    assert FindUser("a", s.users) == 0;
    assert req.USER? ==> !LoggedInElsewhere(s.sessions, "a", 4 + c);
  }

  /** That does happen, since replies are sent after the mutex is released: the
      second client can read its 110 before the first one reads its 130. So the
      intervals are disjoint in the order of the critical sections, not in the
      order of the sends. */
  lemma SentIntervalsCanOverlap() returns (states: seq<State>, acts: seq<Action>)
    ensures RunOf(states, acts)
    ensures var sent := states[|acts|].sent;
            && |sent| == 2 && Starts(sent[0], 0) && Starts(sent[1], 1) && sent[0].name == sent[1].name
            && !Disjoint(sent)
  {
    var s0 := DemoState({}, [], Session(0, "", false, false), Session(0, "", false, false),
                        seq(MAX_SESSIONS, _ => 0), [], []);
    states, acts := DemoConnections(s0);
    var more, moreActs := DemoLogins(states[|acts|]);
    RunsJoin(states, acts, more, moreActs);
    states, acts := states + more[1..], acts + moreActs;
    assert Init(s0);
    var sent := states[|acts|].sent;
    assert StartFor(sent[1], sent[0].name) && !Over(sent, 0, 1);
  }

  lemma RunsJoin(states: seq<State>, acts: seq<Action>, more: seq<State>, moreActs: seq<Action>)
    requires IsRun(states, acts) && IsRun(more, moreActs) && states[|acts|] == more[0]
    ensures IsRun(states + more[1..], acts + moreActs)
    ensures (states + more[1..])[0] == states[0]
    ensures (states + more[1..])[|acts + moreActs|] == more[|moreActs|]
  {
    hide Enabled, Step;
    var all, allActs := states + more[1..], acts + moreActs;
    forall k | 0 <= k < |allActs|
      ensures Enabled(all[k], allActs[k]) && all[k + 1] == Step(all[k], allActs[k])
    {
      if k >= |acts| {
        var j := k - |acts|;
        assert all[k] == more[j] && all[k + 1] == more[j + 1] && allActs[k] == moreActs[j];
      }
    }
  }

  lemma DemoConnections(s0: State) returns (states: seq<State>, acts: seq<Action>)
    requires s0 == DemoState({}, [], Session(0, "", false, false), Session(0, "", false, false),
                             seq(MAX_SESSIONS, _ => 0), [], [])
    ensures IsRun(states, acts) && states[0] == s0
    ensures var s4 := states[|acts|];
            s4 == DemoState({4, 5}, DemoHandlers(),
                            Session(4, "", false, true), Session(5, "", false, true), s4.owner, [], [])
  {
    var s1 := Step(s0, Accept(4));
    var s2 := Step(s1, Accept(5));
    var s3 := Step(s2, AddSession(0));
    var s4 := Step(s3, AddSession(1));
    DemoSeats(s0, s4);
    states, acts := [s0, s1, s2, s3, s4], [Accept(4), Accept(5), AddSession(0), AddSession(1)];
  }

  lemma DemoLogins(s4: State) returns (states: seq<State>, acts: seq<Action>)
    requires s4 == DemoState({4, 5}, DemoHandlers(),
                             Session(4, "", false, true), Session(5, "", false, true), s4.owner, [], [])
    ensures IsRun(states, acts) && states[0] == s4
    ensures states[|acts|].sent == [Reply(0, 110, "a"), Reply(1, 110, "a")]
  {
    var a, b := Session(4, "", false, true), Session(5, "", false, true);
    DemoCommand(s4, 0, USER("a"), s4.handlers, a, b, 110);
    var s5 := Step(s4, Command(0, USER("a")));
    var s6 := Step(s5, Send(0));
    DemoCommand(s6, 0, BYE, s6.handlers, a.(loggedIn := true, username := "a"), b, 130);
    var s7 := Step(s6, Command(0, BYE));
    DemoCommand(s7, 1, USER("a"), s7.handlers, a, b, 110);
    var s8 := Step(s7, Command(1, USER("a")));
    var s9 := Step(s8, Send(1));
    states := [s4, s5, s6, s7, s8, s9];
    acts := [Command(0, USER("a")), Send(0), Command(0, BYE), Command(1, USER("a")), Send(1)];
  }

  lemma DemoSeats(s0: State, s4: State)
    requires var none := Session(0, "", false, false);
             s0 == DemoState({}, [], none, none, seq(MAX_SESSIONS, _ => 0), [], [])
    requires s4 == Step(Step(Step(Step(s0, Accept(4)), Accept(5)), AddSession(0)), AddSession(1))
    ensures s4 == DemoState({4, 5}, DemoHandlers(),
                            Session(4, "", false, true), Session(5, "", false, true), s4.owner, [], [])
  {
    var s2 := Step(Step(s0, Accept(4)), Accept(5));
    assert FreeSlot(s2.sessions) == 0;
    var s3 := Step(s2, AddSession(0));
    assert s3.sessions[0].active && !s3.sessions[1].active;
    assert FreeSlot(s3.sessions) == 1;
  }

  // ----- the server is full exactly at MAX_SESSIONS served connections -----

  ghost function ServedSet(s: State): set<nat> {
    set c: nat | c < |s.handlers| && Seated(s.handlers[c])
  }

  ghost function ActiveUpTo(ss: seq<Session>, n: nat): set<nat>
    requires n <= |ss|
  {
    set k: nat | k < n && ss[k].active
  }

  ghost function OwnersUpTo(s: State, n: nat): set<nat>
    requires n <= |s.sessions|
  {
    set c: nat | c < |s.handlers| && Seated(s.handlers[c]) && s.handlers[c].slot < n
  }

  lemma {:induction false} ActiveCount(ss: seq<Session>, n: nat)
    requires n <= |ss|
    ensures |ActiveUpTo(ss, n)| <= n
    ensures |ActiveUpTo(ss, n)| == n <==> forall k :: 0 <= k < n ==> ss[k].active
  {
    if n > 0 {
      ActiveCount(ss, n - 1);
      ActiveStep(ss, n);
    }
  }

  lemma OwnersStep(s: State, n: nat)
    requires SeatInv(s) && 0 < n <= MAX_SESSIONS
    ensures OwnersUpTo(s, n) ==
            OwnersUpTo(s, n - 1) + if s.sessions[n - 1].active then {s.owner[n - 1] as nat} else {}
    ensures s.sessions[n - 1].active ==> s.owner[n - 1] !in OwnersUpTo(s, n - 1)
  {
    forall c: nat | c in OwnersUpTo(s, n)
      ensures c in OwnersUpTo(s, n - 1) || (s.sessions[n - 1].active && c == s.owner[n - 1])
    {
      assert SeatOk(s, c);
    }
  }

  lemma NoOwnersOfNothing(s: State)
    requires SeatInv(s)
    ensures OwnersUpTo(s, 0) == {}
  {
    forall c: nat | c < |s.handlers| && Seated(s.handlers[c])
      ensures s.handlers[c].slot >= 0
    {
      assert SeatOk(s, c);
    }
  }

  lemma {:induction false} OwnersMatchSlots(s: State, n: nat)
    requires SeatInv(s) && n <= MAX_SESSIONS
    ensures |OwnersUpTo(s, n)| == |ActiveUpTo(s.sessions, n)|
  {
    if n == 0 {
      NoOwnersOfNothing(s);
    } else {
      OwnersMatchSlots(s, n - 1);
      OwnersStep(s, n);
      ActiveStep(s.sessions, n);
    }
  }

  lemma ActiveStep(ss: seq<Session>, n: nat)
    requires 0 < n <= |ss|
    ensures ActiveUpTo(ss, n) == ActiveUpTo(ss, n - 1) + if ss[n - 1].active then {n - 1} else {}
  {
  }

  /** At most MAX_SESSIONS connections are served, and a new one is turned away
      with 500 exactly when that many are. */
  lemma FullIffAllServed(s: State)
    requires Inv(s)
    ensures |ServedSet(s)| <= MAX_SESSIONS
    ensures FreeSlot(s.sessions) == -1 <==> |ServedSet(s)| == MAX_SESSIONS
  {
    OwnersMatchSlots(s, MAX_SESSIONS);
    ActiveCount(s.sessions, MAX_SESSIONS);
    assert OwnersUpTo(s, MAX_SESSIONS) == ServedSet(s) by {
      forall c: nat | c in ServedSet(s)
        ensures s.handlers[c].slot < MAX_SESSIONS
      {
        assert SeatOk(s, c);
      }
    }
  }
}
