/** HW7/TCP-multithread-main/TCP_Server: the account list (user/user.c), the table
    of session slots (server.c) and the login decisions (auth/auth.c).

    Each operation is a function of the table's contents and a method that does
    the same in place on the array, with the loops of the C code. */
module Sessions {

  const MAX_SESSIONS := 100
  const MAX_NAME := 512

  datatype User = User(name: string, status: int)

  datatype Session = Session(sockfd: int, username: string, loggedIn: bool, active: bool)

  /** The two local variables of a connection's handler thread. */
  datatype Local = Local(loggedIn: bool, userIndex: int)

  datatype Request = USER(name: string) | POST(text: string) | BYE | Undefined

  datatype Outcome = Outcome(code: int, local: Local, sessions: seq<Session>)

  /** A name as it fits into a slot, with its terminator. */
  function Truncated(name: string): (r: string)
    ensures r <= name && |r| < MAX_NAME && (|name| < MAX_NAME ==> r == name)
    ensures |name| >= MAX_NAME ==> |r| == MAX_NAME - 1
  {
    if |name| < MAX_NAME then name else name[..MAX_NAME - 1]
  }

  /** loadAccounts reads names with %511s. */
  predicate ValidAccounts(users: seq<User>) {
    forall k :: 0 <= k < |users| ==> |users[k].name| < MAX_NAME
  }

  /** findUser: the first entry with the name, -1 if there is none. */
  function FindUser(name: string, users: seq<User>): (r: int)
    ensures -1 <= r < |users|
    ensures r >= 0 ==> users[r].name == name && forall k :: 0 <= k < r ==> users[k].name != name
    ensures r == -1 ==> forall k :: 0 <= k < |users| ==> users[k].name != name
  {
    if users == [] then -1
    else if users[0].name == name then 0
    else var r := FindUser(name, users[1..]); if r == -1 then -1 else r + 1
  }

  predicate OnSocket(x: Session, fd: int) {
    x.active && x.sockfd == fd
  }

  /** find_session_by_sockfd: the first active slot with the descriptor. */
  function FindSession(ss: seq<Session>, fd: int): (r: int)
    ensures -1 <= r < |ss|
    ensures r >= 0 ==> OnSocket(ss[r], fd) && forall k :: 0 <= k < r ==> !OnSocket(ss[k], fd)
    ensures r == -1 ==> forall k :: 0 <= k < |ss| ==> !OnSocket(ss[k], fd)
  {
    if ss == [] then -1
    else if OnSocket(ss[0], fd) then 0
    else var r := FindSession(ss[1..], fd); if r == -1 then -1 else r + 1
  }

  /** The slot add_session takes: the first inactive one. */
  function FreeSlot(ss: seq<Session>): (r: int)
    ensures -1 <= r < |ss|
    ensures r >= 0 ==> !ss[r].active && forall k :: 0 <= k < r ==> ss[k].active
    ensures r == -1 ==> forall k :: 0 <= k < |ss| ==> ss[k].active
  {
    if ss == [] then -1
    else if !ss[0].active then 0
    else var r := FreeSlot(ss[1..]); if r == -1 then -1 else r + 1
  }

  function WithSession(ss: seq<Session>, fd: int): seq<Session> {
    var k := FreeSlot(ss);
    if k == -1 then ss else ss[k := Session(fd, "", false, true)]
  }

  function WithoutSession(ss: seq<Session>, fd: int): seq<Session> {
    var k := FindSession(ss, fd);
    if k == -1 then ss else ss[k := Session(fd, "", false, false)]
  }

  predicate HasName(x: Session, name: string, fd: int) {
    x.active && x.loggedIn && x.sockfd != fd && x.username == name
  }

  /** is_username_logged_in_nolock */
  predicate LoggedInElsewhere(ss: seq<Session>, name: string, fd: int) {
    exists k :: 0 <= k < |ss| && HasName(ss[k], name, fd)
  }

  /** The slot of descriptor `fd` takes the login state (loggedIn, username). */
  function SetLogin(ss: seq<Session>, fd: int, loggedIn: bool, name: string): seq<Session> {
    var k := FindSession(ss, fd);
    if k == -1 then ss else ss[k := ss[k].(loggedIn := loggedIn, username := name)]
  }

  /** processUSER */
  function ProcessUser(name: string, local: Local, users: seq<User>, fd: int, ss: seq<Session>): Outcome {
    if name == "" then Outcome(300, local, ss)
    else if local.loggedIn then Outcome(213, local, ss)
    else
      var idx := FindUser(name, users);
      if idx == -1 then Outcome(212, local, ss)
      else if users[idx].status == 0 then Outcome(211, local, ss)
      else if LoggedInElsewhere(ss, name, fd) then Outcome(214, local, ss)
      else Outcome(110, Local(true, idx), SetLogin(ss, fd, true, Truncated(name)))
  }

  /** processBYE, and the reset of current_user_index by its caller. */
  function ProcessBye(local: Local, fd: int, ss: seq<Session>): Outcome {
    if !local.loggedIn then Outcome(221, local, ss)
    else Outcome(130, Local(false, -1), SetLogin(ss, fd, false, ""))
  }

  function ProcessPost(local: Local): int {
    if local.loggedIn then 120 else 221
  }

  /** The dispatch of one command in handle_protocol_with_session. */
  function Execute(req: Request, local: Local, users: seq<User>, fd: int, ss: seq<Session>): Outcome {
    match req
    case USER(name) => ProcessUser(name, local, users, fd, ss)
    case POST(_) => Outcome(ProcessPost(local), local, ss)
    case BYE => ProcessBye(local, fd, ss)
    case Undefined => Outcome(300, local, ss)
  }

  /** A command touches no slot but the one of its own descriptor, and there only
      the login state. */
  lemma ExecuteKeepsOthers(req: Request, local: Local, users: seq<User>, fd: int, ss: seq<Session>)
    ensures var t := Execute(req, local, users, fd, ss).sessions;
            && |t| == |ss|
            && forall k :: 0 <= k < |ss| ==>
                 && t[k].active == ss[k].active && t[k].sockfd == ss[k].sockfd
                 && (k != FindSession(ss, fd) ==> t[k] == ss[k])
  {
  }

  /** Descriptors of active slots are distinct. */
  predicate DistinctSockets(ss: seq<Session>) {
    forall i, j :: 0 <= i < j < |ss| && ss[i].active && ss[j].active ==> ss[i].sockfd != ss[j].sockfd
  }

  lemma FindSessionUnique(ss: seq<Session>, k: nat)
    requires DistinctSockets(ss) && k < |ss| && ss[k].active
    ensures FindSession(ss, ss[k].sockfd) == k
  {
  }

  /** The shared table, guarded by session_mutex: every method below is one
      critical section. */
  class SessionTable {
    const sessions: array<Session>
    var sessionCount: nat

    ghost predicate Valid()
      reads this
    {
      sessions.Length == MAX_SESSIONS
    }

    /** All slots start empty and inactive. */
    constructor ()
      ensures Valid() && fresh(sessions) && sessionCount == 0
      ensures forall k :: 0 <= k < MAX_SESSIONS ==> sessions[k] == Session(0, "", false, false)
    {
      sessions := new Session[MAX_SESSIONS](_ => Session(0, "", false, false));
      sessionCount := 0;
    }

    method FindSessionBySockfd(fd: int) returns (r: int)
      requires Valid()
      ensures r == FindSession(sessions[..], fd)
    {
      var i := 0;
      while i < MAX_SESSIONS
        invariant 0 <= i <= MAX_SESSIONS
        invariant forall k :: 0 <= k < i ==> !OnSocket(sessions[k], fd)
      {
        if sessions[i].active && sessions[i].sockfd == fd {
          return i;
        }
        i := i + 1;
      }
      return -1;
    }

    method AddSession(fd: int) returns (slot: int)
      requires Valid()
      modifies this`sessionCount, sessions
      ensures slot == FreeSlot(old(sessions[..]))
      ensures sessions[..] == WithSession(old(sessions[..]), fd)
      ensures sessionCount == old(sessionCount) + if slot == -1 then 0 else 1
    {
      slot := -1;
      var i := 0;
      while i < MAX_SESSIONS
        invariant 0 <= i <= MAX_SESSIONS && slot == -1
        invariant sessions[..] == old(sessions[..]) && sessionCount == old(sessionCount)
        invariant forall k :: 0 <= k < i ==> sessions[k].active
      {
        if !sessions[i].active {
          slot := i;
          sessions[i] := sessions[i].(sockfd := fd, active := true, loggedIn := false);
          sessions[i] := sessions[i].(username := "");
          sessionCount := sessionCount + 1;
          break;
        }
        i := i + 1;
      }
    }

    method RemoveSession(fd: int)
      requires Valid()
      modifies sessions
      ensures sessions[..] == WithoutSession(old(sessions[..]), fd)
    {
      var idx := FindSessionBySockfd(fd);
      if idx != -1 {
        sessions[idx] := sessions[idx].(active := false);
        sessions[idx] := sessions[idx].(loggedIn := false);
        sessions[idx] := sessions[idx].(username := "");
      }
    }

    method IsUsernameLoggedIn(name: string, fd: int) returns (found: bool)
      requires Valid()
      ensures found == LoggedInElsewhere(sessions[..], name, fd)
    {
      var i := 0;
      while i < MAX_SESSIONS
        invariant 0 <= i <= MAX_SESSIONS
        invariant forall k :: 0 <= k < i ==> !HasName(sessions[k], name, fd)
      {
        if sessions[i].active {
          if sessions[i].loggedIn && sessions[i].sockfd != fd && sessions[i].username == name {
            assert HasName(sessions[..][i], name, fd);
            return true;
          }
        }
        i := i + 1;
      }
      return false;
    }

    method UserCommand(name: string, local: Local, users: seq<User>, fd: int)
      returns (code: int, after: Local)
      requires Valid()
      modifies sessions
      ensures Outcome(code, after, sessions[..]) == ProcessUser(name, local, users, fd, old(sessions[..]))
    {
      after := local;
      if |name| == 0 {
        return 300, after;
      }
      if local.loggedIn {
        return 213, after;
      }
      var idx := FindUserLoop(name, users);
      if idx == -1 {
        return 212, after;
      }
      if users[idx].status == 0 {
        return 211, after;
      }
      var elsewhere := IsUsernameLoggedIn(name, fd);
      if elsewhere {
        return 214, after;
      }
      after := Local(true, idx);
      var i := 0;
      while i < MAX_SESSIONS
        invariant 0 <= i <= MAX_SESSIONS
        invariant sessions[..] == old(sessions[..])
        invariant forall k :: 0 <= k < i ==> !OnSocket(sessions[k], fd)
      {
        if sessions[i].active && sessions[i].sockfd == fd {
          sessions[i] := sessions[i].(username := Truncated(name));
          sessions[i] := sessions[i].(loggedIn := true);
          break;
        }
        i := i + 1;
      }
      code := 110;
    }

    method ByeCommand(local: Local, fd: int) returns (code: int, after: Local)
      requires Valid()
      modifies sessions
      ensures Outcome(code, after, sessions[..]) == ProcessBye(local, fd, old(sessions[..]))
    {
      if !local.loggedIn {
        return 221, local;
      }
      after := Local(false, -1);
      var i := 0;
      while i < MAX_SESSIONS
        invariant 0 <= i <= MAX_SESSIONS
        invariant sessions[..] == old(sessions[..])
        invariant forall k :: 0 <= k < i ==> !OnSocket(sessions[k], fd)
      {
        if sessions[i].active && sessions[i].sockfd == fd {
          sessions[i] := sessions[i].(username := "");
          sessions[i] := sessions[i].(loggedIn := false);
          break;
        }
        i := i + 1;
      }
      code := 130;
    }
  }

  method FindUserLoop(name: string, users: seq<User>) returns (r: int)
    ensures r == FindUser(name, users)
  {
    for i := 0 to |users|
      invariant forall k :: 0 <= k < i ==> users[k].name != name
    {
      if users[i].name == name {
        return i;
      }
    }
    return -1;
  }
}
