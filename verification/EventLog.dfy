/** Histories of the login server: what they say about who is logged in where,
    independently of how the server works. */
module EventLog {
  import opened Wrappers

  /** A reply on a connection (`name` is the user of a 110), or the end of the
      connection's session. */
  datatype Event = Reply(conn: nat, code: int, name: string) | Gone(conn: nat)

  predicate Ends(e: Event, c: nat) {
    e.conn == c && (e.Gone? || e.code == 130)
  }

  predicate Starts(e: Event, c: nat) {
    e.conn == c && e.Reply? && e.code == 110
  }

  predicate GoneIn(log: seq<Event>, c: nat) {
    Gone(c) in log
  }

  /** The user connection `c` is logged in as after `log`. */
  function Holder(log: seq<Event>, c: nat): Option<string> {
    if log == [] then None
    else
      var e := log[|log| - 1];
      if Starts(e, c) then Some(e.name)
      else if Ends(e, c) then None
      else Holder(log[..|log| - 1], c)
  }

  /** What the next event may be: nothing follows the end of a connection, a login
      is of a user nobody holds by a connection that holds nobody, and 120, 130 and
      213 come only on a logged in connection, 221 only on one that is not. */
  ghost predicate EventOk(log: seq<Event>, e: Event) {
    && !GoneIn(log, e.conn)
    && (e.Reply? ==>
          && (e.code == 110 ==> Holder(log, e.conn) == None && forall d :: Holder(log, d) != Some(e.name))
          && (e.code in {120, 130, 213} ==> Holder(log, e.conn) != None)
          && (e.code in {221, 211, 212, 214} ==> Holder(log, e.conn) == None))
  }

  ghost predicate LogOk(log: seq<Event>) {
    forall k :: 0 <= k < |log| ==> EventOk(log[..k], log[k])
  }

  lemma LogOkAppend(log: seq<Event>, e: Event)
    requires LogOk(log) && EventOk(log, e)
    ensures LogOk(log + [e])
  {
    var log' := log + [e];
    forall k | 0 <= k < |log'|
      ensures EventOk(log'[..k], log'[k])
    {
      assert log'[..k] == log[..k];
      if k == |log| {
        assert log[..k] == log;
      }
    }
  }

  lemma GoneAppend(log: seq<Event>, e: Event, c: nat)
    ensures GoneIn(log + [e], c) <==> GoneIn(log, c) || e == Gone(c)
  {
    assert forall x :: x in log + [e] <==> x in log || x == e;
  }

  lemma HolderAppend(log: seq<Event>, e: Event, c: nat)
    ensures Holder(log + [e], c) ==
            if Starts(e, c) then Some(e.name) else if Ends(e, c) then None else Holder(log, c)
  {
    assert (log + [e])[..|log|] == log;
  }

  /** On every connection a 110 comes only when the one before it has ended. */
  ghost predicate OneAtATime(log: seq<Event>) {
    forall k :: 0 <= k < |log| && Starts(log[k], log[k].conn) ==> Holder(log[..k], log[k].conn) == None
  }

  lemma LogOkOneAtATime(log: seq<Event>)
    requires LogOk(log)
    ensures OneAtATime(log)
  {
    forall k | 0 <= k < |log| && Starts(log[k], log[k].conn)
      ensures Holder(log[..k], log[k].conn) == None
    {
      assert EventOk(log[..k], log[k]);
    }
  }

  /** A user stays held until the holder's 130 or the end of its connection. */
  lemma {:induction false} HolderKept(log: seq<Event>, c: nat, i: nat, j: nat)
    requires OneAtATime(log) && i < j <= |log| && Starts(log[i], c)
    requires forall k :: i < k < j ==> !Ends(log[k], c)
    ensures Holder(log[..j], c) == Some(log[i].name)
    decreases j - i
  {
    assert log[..j][..j - 1] == log[..j - 1];
    if i + 1 < j {
      assert Starts(log[j - 1], c) ==> Holder(log[..j - 1], log[j - 1].conn) == None;
      HolderKept(log, c, i, j - 1);
    }
  }

  predicate StartFor(e: Event, name: string) {
    e.Reply? && e.code == 110 && e.name == name
  }

  /** The interval that begins at `i` is over before position `j`. */
  predicate Over(log: seq<Event>, i: nat, j: nat)
    requires i < j <= |log|
  {
    exists k :: i < k < j && Ends(log[k], log[i].conn)
  }

  /** The login intervals of every account are disjoint: between two 110 for one user
      comes the first connection's 130 or its end. */
  ghost predicate Disjoint(log: seq<Event>) {
    forall i, j :: 0 <= i < j < |log| && log[i].Reply? && log[i].code == 110 && StartFor(log[j], log[i].name) ==>
      Over(log, i, j)
  }

  /** Nobody holds the user for whom `e` is a 110. */
  ghost predicate NobodyHolds(log: seq<Event>, e: Event) {
    e.Reply? && e.code == 110 ==> forall c: nat :: Holder(log, c) != Some(e.name)
  }

  ghost predicate FreeWhenStarted(log: seq<Event>) {
    forall j :: 0 <= j < |log| ==> NobodyHolds(log[..j], log[j])
  }

  /** A user held before position `j` got a 110 whose interval is not over. */
  lemma HeldIsOpen(log: seq<Event>, c: nat, j: nat) returns (i: nat)
    requires j <= |log| && Holder(log[..j], c) != None
    ensures i < j && Starts(log[i], c) && Holder(log[..j], c) == Some(log[i].name) && !Over(log, i, j)
  {
    i := HolderHasStart(log[..j], c);
    assert forall k :: i <= k < j ==> log[..j][k] == log[k];
  }

  /** Intervals are disjoint if and only if nobody holds the user of a 110 when it
      comes. */
  lemma DisjointIff(log: seq<Event>)
    requires OneAtATime(log)
    ensures Disjoint(log) <==> FreeWhenStarted(log)
  {
    if FreeWhenStarted(log) {
      forall i, j | 0 <= i < j < |log| && log[i].Reply? && log[i].code == 110 && StartFor(log[j], log[i].name)
        ensures Over(log, i, j)
      {
        if !Over(log, i, j) {
          assert NobodyHolds(log[..j], log[j]);
          HolderKept(log, log[i].conn, i, j);
        }
      }
    }
    if Disjoint(log) {
      forall j, c: nat | 0 <= j < |log| && log[j].Reply? && log[j].code == 110
        ensures Holder(log[..j], c) != Some(log[j].name)
      {
        if Holder(log[..j], c) == Some(log[j].name) {
          var i := HeldIsOpen(log, c, j);
        }
      }
    }
  }

  lemma FreeAppend(log: seq<Event>, e: Event)
    ensures FreeWhenStarted(log + [e]) <==> FreeWhenStarted(log) && NobodyHolds(log, e)
    ensures OneAtATime(log + [e]) <==> OneAtATime(log) && (Starts(e, e.conn) ==> Holder(log, e.conn) == None)
  {
    var log' := log + [e];
    assert log'[..|log|] == log && log'[|log|] == e;
    assert forall k :: 0 <= k < |log| ==> log'[..k] == log[..k] && log'[k] == log[k];
  }

  /** The user of the last 110 on connection `c`. */
  function LastLogin(log: seq<Event>, c: nat): Option<string> {
    if log == [] then None
    else if Starts(log[|log| - 1], c) then Some(log[|log| - 1].name)
    else LastLogin(log[..|log| - 1], c)
  }

  lemma {:induction false} HolderIsLastLogin(log: seq<Event>, c: nat)
    requires Holder(log, c) != None
    ensures LastLogin(log, c) == Holder(log, c)
  {
    if !Starts(log[|log| - 1], c) {
      HolderIsLastLogin(log[..|log| - 1], c);
    }
  }

  /** Well-formed histories have disjoint login intervals. */
  lemma DisjointIntervals(log: seq<Event>)
    requires LogOk(log)
    ensures Disjoint(log)
  {
    LogOkOneAtATime(log);
    forall j | 0 <= j < |log|
      ensures NobodyHolds(log[..j], log[j])
    {
      assert EventOk(log[..j], log[j]);
    }
    DisjointIff(log);
  }

  /** Whoever holds a user got a 110 for it and has not ended the interval since. */
  lemma {:induction false} HolderHasStart(log: seq<Event>, c: nat) returns (i: nat)
    requires Holder(log, c) != None
    ensures i < |log| && Starts(log[i], c) && Holder(log, c) == Some(log[i].name)
    ensures forall k :: i < k < |log| ==> !Ends(log[k], c)
  {
    var n := |log| - 1;
    if Starts(log[n], c) {
      i := n;
    } else {
      i := HolderHasStart(log[..n], c);
    }
  }

  /** 120 and 130 are answered only inside a login interval of their connection. */
  lemma InsideInterval(log: seq<Event>, j: nat)
    requires LogOk(log) && j < |log| && log[j].Reply? && log[j].code in {120, 130}
    ensures exists i :: 0 <= i < j && Starts(log[i], log[j].conn) &&
                        forall k :: i < k < j ==> !Ends(log[k], log[j].conn)
  {
    var c := log[j].conn;
    assert EventOk(log[..j], log[j]);
    var i := HolderHasStart(log[..j], c);
    assert Starts(log[i], c);
    assert forall k :: i < k < j ==> log[..j][k] == log[k];
  }

  function CountCode(log: seq<Event>, c: nat, code: int): nat {
    if log == [] then 0
    else
      var e := log[|log| - 1];
      CountCode(log[..|log| - 1], c, code) + if e.Reply? && e.conn == c && e.code == code then 1 else 0
  }

  lemma LogOkPrefix(log: seq<Event>, n: nat)
    requires LogOk(log) && n <= |log|
    ensures LogOk(log[..n])
  {
    forall k | 0 <= k < n
      ensures EventOk(log[..n][..k], log[..n][k])
    {
      assert log[..n][..k] == log[..k];
    }
  }

  /** On each connection logins and logouts alternate, logins first; while the
      connection lives the balance says whether it is logged in. */
  lemma {:induction false} LoginBalance(log: seq<Event>, c: nat)
    requires LogOk(log)
    ensures 0 <= CountCode(log, c, 110) - CountCode(log, c, 130) <= 1
    ensures !GoneIn(log, c) ==>
              (CountCode(log, c, 110) - CountCode(log, c, 130) == 1 <==> Holder(log, c) != None)
  {
    if log != [] {
      var n := |log| - 1;
      LogOkPrefix(log, n);
      LoginBalance(log[..n], c);
      assert EventOk(log[..n], log[n]);
      assert forall e :: e in log[..n] ==> e in log;
    }
  }

  // ----- the replies of one connection -----

  /** The replies on connection `c`, in order. */
  function Replies(log: seq<Event>, c: nat): seq<Event> {
    if log == [] then []
    else
      var e := log[|log| - 1];
      Replies(log[..|log| - 1], c) + if e.Reply? && e.conn == c then [e] else []
  }

  lemma RepliesAppend(log: seq<Event>, e: Event, c: nat)
    ensures Replies(log + [e], c) == Replies(log, c) + if e.Reply? && e.conn == c then [e] else []
  {
    assert (log + [e])[..|log|] == log;
  }

  /** While a connection lives, its own replies tell its login state. */
  lemma {:induction false} HolderOfReplies(log: seq<Event>, c: nat)
    requires !GoneIn(log, c)
    ensures Holder(Replies(log, c), c) == Holder(log, c)
  {
    if log != [] {
      var n := |log| - 1;
      assert forall e :: e in log[..n] ==> e in log;
      HolderOfReplies(log[..n], c);
      var e := log[n];
      if e.Reply? && e.conn == c {
        HolderAppend(Replies(log[..n], c), e, c);
      } else {
        assert Replies(log, c) == Replies(log[..n], c);
      }
    }
  }
}
