/** The body of a handler thread: handle_protocol_with_session of protocol.c with its
    receive buffer, and client_handler of server.c around it, run without
    interference from other handlers. */
module ConnectionHandler {
  import opened Buffers
  import opened CStrings
  import opened Framing
  import opened Net
  import opened Sessions

  method Strchr(buf: array<char>, c: char) returns (p: int)
    requires NUL in buf[..] && c != NUL
    ensures p == -1 ==> c !in CString(buf[..])
    ensures p != -1 ==> 0 <= p < buf.Length && buf[p] == c && c !in buf[..p] && NUL !in buf[..p]
  {
    var i := 0;
    while buf[i] != NUL
      invariant 0 <= i <= IndexOf(buf[..], NUL) < buf.Length
      invariant forall k :: 0 <= k < i ==> buf[k] != c && buf[k] != NUL
      decreases buf.Length - i
    {
      if buf[i] == c {
        return i;
      }
      i := i + 1;
    }
    return -1;
  }

  /** The connection has been answered as `run` says: `base` is what had been sent on
      it when the handler started. */
  ghost predicate ServedAs(conn: Socket, table: SessionTable, local: Local, base: seq<string>, run: Served)
    reads conn, table, table.sessions
  {
    conn.outgoing == base + run.replies && local == run.local && table.sessions[..] == run.sessions
  }

  /** The dispatch on the command word. */
  method Perform(req: Request, local: Local, sockfd: int, users: seq<User>, table: SessionTable)
    returns (code: int, after: Local)
    requires table.Valid()
    modifies table.sessions
    ensures Outcome(code, after, table.sessions[..]) == Execute(req, local, users, sockfd, old(table.sessions[..]))
  {
    match req {
      case USER(name) => code, after := table.UserCommand(name, local, users, sockfd);
      case POST(_) => code, after := if local.loggedIn then 120 else 221, local;
      case BYE => code, after := table.ByeCommand(local, sockfd);
      case Undefined => code, after := 300, local;
    }
  }

  /** One command is performed and answered. */
  method Dispatch(req: Request, local: Local, conn: Socket, sockfd: int, users: seq<User>, table: SessionTable,
                  ghost base: seq<string>, ghost run: Served)
    returns (after: Local)
    requires table.Valid() && ServedAs(conn, table, local, base, run)
    modifies conn`outgoing, table.sessions
    ensures ServedAs(conn, table, after, base, Answer(run, req, users, sockfd))
  {
    var code;
    code, after := Perform(req, local, sockfd, users, table);
    var text := ReplyText(req, code);
    assert (base + run.replies) + [text] == base + (run.replies + [text]);
    conn.Send(text);
  }

  /** The command in front of the newline at `p`, after the newline and one '\r'
      before it have been overwritten in place. */
  method CutLine(buffer: array<char>, p: nat) returns (line: string)
    requires p < buffer.Length && buffer[p] == '\n' && NUL !in buffer[..p]
    modifies buffer
    ensures line == Stripped(old(buffer[..p]))
    ensures buffer[p + 1..] == old(buffer[p + 1..])
  {
    buffer[p] := NUL;
    IndexOfUnique(buffer[..], NUL, p);
    assert buffer[0..] == buffer[..];
    var cmdLen := Strlen(buffer, 0);
    assert cmdLen == p;
    if cmdLen > 0 && buffer[cmdLen - 1] == '\r' {
      buffer[cmdLen - 1] := NUL;
      IndexOfUnique(buffer[..], NUL, p - 1);
      line := buffer[..p - 1];
    } else {
      line := buffer[..p];
    }
  }

  lemma LineInBuffer(content: string, rest: string, p: nat)
    requires p < |content| < MAX_BUFFER && content[p] == '\n'
    requires '\n' !in content[..p] && NUL !in content[..p]
    ensures Lines(content + rest) == [content[..p]] + Lines(content[p + 1..] + rest)
    ensures Tail(content + rest) == Tail(content[p + 1..] + rest)
  {
    SplitAtNewline(content, rest, p);
    LinesOfLine(content[..p], content[p + 1..] + rest);
  }

  lemma SplitAtNewline(content: string, rest: string, p: nat)
    requires p < |content| && content[p] == '\n'
    ensures content + rest == content[..p] + "\n" + (content[p + 1..] + rest)
  {
  }

  /** One round of the inner loop: the line in front of `newline` is executed and
      the rest of the buffer shifted to its front. */
  method ExecuteFirst(buffer: array<char>, len: nat, newline: nat, local: Local, conn: Socket, sockfd: int,
                      users: seq<User>, table: SessionTable, ghost base: seq<string>, ghost run: Served)
    returns (newLen: nat, after: Local, ghost req: Request)
    requires buffer.Length == MAX_BUFFER && newline < len < MAX_BUFFER
    requires buffer[newline] == '\n' && NUL !in buffer[..newline]
    requires table.Valid() && ServedAs(conn, table, local, base, run)
    modifies buffer, conn`outgoing, table.sessions
    ensures newLen == len - newline - 1
    ensures buffer[..newLen] == old(buffer[newline + 1..len]) && buffer[newLen] == NUL
    ensures req == CommandOf(old(buffer[..newline]))
    ensures ServedAs(conn, table, after, base, Answer(run, req, users, sockfd))
  {
    hide Interpret, Answer, Stripped;
    var line := CutLine(buffer, newline);
    var command := Interpret(line);
    req := command;
    after := Dispatch(command, local, conn, sockfd, users, table, base, run);
    newLen := Shift(buffer, newline + 1, len);
  }

  /** The bytes behind an executed line move to the front of the buffer. */
  method Shift(buffer: array<char>, consumed: nat, len: nat) returns (newLen: nat)
    requires 0 < consumed <= len < buffer.Length
    modifies buffer
    ensures newLen == len - consumed
    ensures buffer[..newLen] == old(buffer[consumed..len]) && buffer[newLen] == NUL
  {
    newLen := len - consumed;
    MoveDown(buffer, consumed, newLen);
    assert buffer[..newLen] == buffer[..][..newLen];
    buffer[newLen] := NUL;
  }

  /** `done` and then `rest` is one way to frame what `total` is still to be framed as. */
  ghost predicate Framed(first: seq<string>, total: string, done: seq<string>, rest: string) {
    first + Lines(total) == done + Lines(rest) && Tail(total) == Tail(rest)
  }

  /** The first line of the buffer's content is framed. */
  lemma FramedLine(first: seq<string>, total: string, done: seq<string>, buffer: string, len: nat, rest: string,
                   p: nat)
    requires p < len < |buffer| == MAX_BUFFER && buffer[p] == '\n'
    requires '\n' !in buffer[..p] && NUL !in buffer[..p]
    requires Framed(first, total, done, buffer[..len] + rest)
    ensures Framed(first, total, done + [buffer[..p]], buffer[p + 1..len] + rest)
  {
    var content := buffer[..len];
    assert content[..p] == buffer[..p] && content[p + 1..] == buffer[p + 1..len];
    LineInBuffer(content, rest, p);
  }

  /** The test of the inner loop and one round of it. */
  method ExecuteNext(buffer: array<char>, len: nat, local: Local, conn: Socket, sockfd: int,
                     users: seq<User>, table: SessionTable,
                     done: seq<string>, ghost base: seq<string>, ghost ss: seq<Session>,
                     ghost first: seq<string>, ghost total: string)
    returns (found: bool, newLen: nat, after: Local, lines: seq<string>)
    requires buffer.Length == MAX_BUFFER && len < MAX_BUFFER && buffer[len] == NUL
    requires table.Valid() && ServedAs(conn, table, local, base, Serve(done, users, sockfd, ss))
    requires Framed(first, total, done, buffer[..len] + conn.incoming)
    modifies buffer, conn`outgoing, table.sessions
    ensures newLen <= len && buffer[newLen] == NUL
    ensures ServedAs(conn, table, after, base, Serve(lines, users, sockfd, ss))
    ensures Framed(first, total, lines, buffer[..newLen] + conn.incoming)
    ensures if found then newLen < len else newLen == len && '\n' !in CString(buffer[..])
  {
    assert buffer[..][len] == NUL;
    var newline := Strchr(buffer, '\n');
    if newline == -1 {
      return false, len, local, done;
    }
    var line := buffer[..newline];
    FramedLine(first, total, done, buffer[..], len, conn.incoming, newline);
    ghost var req;
    newLen, after, req :=
      ExecuteFirst(buffer, len, newline, local, conn, sockfd, users, table, base, Serve(done, users, sockfd, ss));
    ServeAppend(done, line, users, sockfd, ss);
    found, lines := true, done + [line];
  }

  /** The inner loop: executes the lines that are complete in the buffer. What the
      peer sends later comes behind the bytes that stay. */
  method ExecuteLines(buffer: array<char>, len: nat, local: Local, conn: Socket, sockfd: int,
                      users: seq<User>, table: SessionTable,
                      done: seq<string>, ghost base: seq<string>, ghost ss: seq<Session>)
    returns (newLen: nat, after: Local, lines: seq<string>)
    requires buffer.Length == MAX_BUFFER && len < MAX_BUFFER && buffer[len] == NUL
    requires table.Valid() && ServedAs(conn, table, local, base, Serve(done, users, sockfd, ss))
    modifies buffer, conn`outgoing, table.sessions
    ensures newLen <= len && buffer[newLen] == NUL && '\n' !in CString(buffer[..])
    ensures Framed(done, old(buffer[..len]) + conn.incoming, lines, buffer[..newLen] + conn.incoming)
    ensures ServedAs(conn, table, after, base, Serve(lines, users, sockfd, ss))
  {
    newLen, after, lines := len, local, done;
    ghost var total := buffer[..len] + conn.incoming;
    var found := true;
    while found
      invariant newLen <= len && buffer[newLen] == NUL
      invariant Framed(done, total, lines, buffer[..newLen] + conn.incoming)
      invariant ServedAs(conn, table, after, base, Serve(lines, users, sockfd, ss))
      invariant !found ==> '\n' !in CString(buffer[..])
      decreases found, newLen
    {
      found, newLen, after, lines :=
        ExecuteNext(buffer, newLen, after, conn, sockfd, users, table, lines, base, ss, done, total);
    }
  }

  /** No complete line waits in the buffer, and none can any more: the stream is at
      its end or the buffer is full. */
  lemma NothingLeft(buffer: seq<char>, len: nat, rest: string)
    requires |buffer| == MAX_BUFFER && len < MAX_BUFFER && buffer[len] == NUL
    requires '\n' !in CString(buffer)
    requires rest == "" || len == MAX_BUFFER - 1
    ensures Lines(buffer[..len] + rest) == [] && Tail(buffer[..len] + rest) == buffer[..len] + rest
  {
    var s := buffer[..len] + rest;
    var p := IndexOf(s, '\n');
    if p < |s| && p < len {
      assert s[p] == buffer[p];
      var z := IndexOf(buffer, NUL);
      assert forall k :: 0 <= k < z ==> buffer[k] in CString(buffer) by {
        assert forall k :: 0 <= k < z ==> CString(buffer)[k] == buffer[k];
      }
      assert s[..p][z] == NUL;
    }
  }

  lemma FramedEnd(total: string, executed: seq<string>, rest: string)
    requires Framed([], total, executed, rest)
    ensures executed <= Lines(total)
    ensures Lines(rest) == [] && Tail(rest) == rest ==> executed == Lines(total) && rest == Tail(total)
  {
    assert [] + Lines(total) == Lines(total);
  }

  /** One receive into the free part of the buffer, all of it but room for the NUL that
      ends what is received. */
  method Receive(buffer: array<char>, len: nat, conn: Socket) returns (filled: nat, open: bool)
    requires buffer.Length == MAX_BUFFER && len < MAX_BUFFER && buffer[len] == NUL
    modifies buffer, conn`incoming, conn`cuts
    ensures open ==> len < filled < MAX_BUFFER && buffer[filled] == NUL && |conn.incoming| < |old(conn.incoming)|
    ensures buffer[..if open then filled else len] + conn.incoming == old(buffer[..len] + conn.incoming)
    ensures !open ==> buffer[..] == old(buffer[..]) && conn.incoming == old(conn.incoming)
    ensures !open && conn.reliable ==> conn.incoming == "" || len == MAX_BUFFER - 1
  {
    filled, open := len, false;
    var r := conn.Recv(MAX_BUFFER - len - 1);
    if r.Data? {
      open, filled := true, len + |r.bytes|;
      CopyIn(buffer, len, r.bytes);
      assert buffer[..filled] == buffer[..][..filled] == old(buffer[..len]) + r.bytes;
      buffer[filled] := NUL;
      assert buffer[..filled] + conn.incoming == old(buffer[..len]) + (r.bytes + conn.incoming);
    }
  }

  /** The receive loop. For every stream, however it is cut into chunks: on a
      connection without receive errors exactly the lines of the stream are executed,
      in order, and exactly its tail is left over. */
  method HandleProtocol(conn: Socket, sockfd: int, users: seq<User>, table: SessionTable)
    returns (executed: seq<string>, left: string)
    requires table.Valid()
    modifies conn, table.sessions
    ensures executed <= Lines(old(conn.incoming))
    ensures conn.reliable ==>
              executed == Lines(old(conn.incoming)) && left + conn.incoming == Tail(old(conn.incoming))
    ensures var run := Serve(executed, users, sockfd, old(table.sessions[..]));
            conn.outgoing == old(conn.outgoing) + run.replies && table.sessions[..] == run.sessions
  {
    ghost var total, base, ss := conn.incoming, conn.outgoing, table.sessions[..];
    var buffer := new char[MAX_BUFFER](_ => NUL);
    var bufferLen, local, open := 0, Local(false, -1), true;
    executed := [];
    conn.Send(WELCOME);
    assert buffer[..0] + conn.incoming == total;
    IndexOfUnique(buffer[..], NUL, 0);
    while open
      invariant 0 <= bufferLen < MAX_BUFFER && buffer[bufferLen] == NUL
      invariant '\n' !in CString(buffer[..])
      invariant Framed([], total, executed, buffer[..bufferLen] + conn.incoming)
      invariant ServedAs(conn, table, local, base, Serve(executed, users, sockfd, ss))
      invariant !open && conn.reliable ==> conn.incoming == "" || bufferLen == MAX_BUFFER - 1
      decreases open, |conn.incoming|
    {
      var filled;
      filled, open := Receive(buffer, bufferLen, conn);
      if open {
        bufferLen, local, executed :=
          ExecuteLines(buffer, filled, local, conn, sockfd, users, table, executed, base, ss);
      }
    }
    left := buffer[..bufferLen];
    FramedEnd(total, executed, left + conn.incoming);
    if conn.reliable {
      NothingLeft(buffer[..], bufferLen, conn.incoming);
      assert buffer[..][..bufferLen] == left;
    }
  }

  // ----- the life of one connection -----

  /** Same active slots on the same descriptors. */
  ghost predicate SameShape(ss: seq<Session>, tt: seq<Session>) {
    |tt| == |ss| && forall k :: 0 <= k < |ss| ==> tt[k].active == ss[k].active && tt[k].sockfd == ss[k].sockfd
  }

  lemma FindSessionByShape(ss: seq<Session>, tt: seq<Session>, fd: int)
    requires SameShape(ss, tt)
    ensures FindSession(tt, fd) == FindSession(ss, fd)
  {
    var r, q := FindSession(ss, fd), FindSession(tt, fd);
    assert forall k :: 0 <= k < |ss| ==> OnSocket(tt[k], fd) == OnSocket(ss[k], fd);
  }

  lemma {:induction false} ServeKeepsOthers(lines: seq<string>, users: seq<User>, fd: int, ss: seq<Session>)
    ensures var tt := Serve(lines, users, fd, ss).sessions;
            && SameShape(ss, tt)
            && forall k :: 0 <= k < |ss| && k != FindSession(ss, fd) ==> tt[k] == ss[k]
  {
    if lines != [] {
      var before := Serve(lines[..|lines| - 1], users, fd, ss);
      ServeKeepsOthers(lines[..|lines| - 1], users, fd, ss);
      FindSessionByShape(ss, before.sessions, fd);
      ExecuteKeepsOthers(CommandOf(lines[|lines| - 1]), before.local, users, fd, before.sessions);
    }
  }

  lemma SeatFoundAgain(ss: seq<Session>, fd: int)
    requires FindSession(ss, fd) == -1 && FreeSlot(ss) != -1
    ensures FindSession(WithSession(ss, fd), fd) == FreeSlot(ss)
  {
    var tt, slot := WithSession(ss, fd), FreeSlot(ss);
    assert OnSocket(tt[slot], fd);
    assert forall k :: 0 <= k < |ss| && k != slot ==> tt[k] == ss[k] && !OnSocket(ss[k], fd);
  }

  /** A connection with the seat taken in `ss` was answered `replies` for lines of its
      stream, for all of them if no receive failed. */
  ghost predicate ServedLines(stream: string, reliable: bool, users: seq<User>, fd: int, ss: seq<Session>,
                              replies: seq<string>)
  {
    exists n: nat :: n <= |Lines(stream)| && (reliable ==> n == |Lines(stream)|)
                     && replies == Serve(Lines(stream)[..n], users, fd, WithSession(ss, fd)).replies
  }

  lemma LinesServed(stream: string, reliable: bool, users: seq<User>, fd: int, ss: seq<Session>,
                    executed: seq<string>)
    requires executed <= Lines(stream) && (reliable ==> executed == Lines(stream))
    ensures ServedLines(stream, reliable, users, fd, ss, Serve(executed, users, fd, WithSession(ss, fd)).replies)
  {
    assert Lines(stream)[..|executed|] == executed;
  }

  /** client_handler. A connection is turned away exactly when no slot is free; one
      that is served is answered for the lines of its stream, leaves every other slot
      as it found it, and its own free. */
  method ClientHandler(conn: Socket, sockfd: int, users: seq<User>, table: SessionTable)
    requires table.Valid()
    requires FindSession(table.sessions[..], sockfd) == -1
    modifies conn, table`sessionCount, table.sessions
    ensures var ss, tt, sent := old(table.sessions[..]), table.sessions[..], |old(conn.outgoing)|;
            if FreeSlot(ss) == -1 then
              tt == ss && conn.outgoing == old(conn.outgoing) + [SERVER_FULL] && conn.incoming == old(conn.incoming)
            else
              && sent <= |conn.outgoing| && conn.outgoing[..sent] == old(conn.outgoing)
              && ServedLines(old(conn.incoming), conn.reliable, users, sockfd, ss, conn.outgoing[sent..])
              && (forall k :: 0 <= k < MAX_SESSIONS && k != FreeSlot(ss) ==> tt[k] == ss[k])
              && !tt[FreeSlot(ss)].active && !tt[FreeSlot(ss)].loggedIn
  {
    hide ServedLines, Serve, Lines;
    ghost var ss, stream := table.sessions[..], conn.incoming;
    var slot := table.AddSession(sockfd);
    if slot == -1 {
      conn.Send(SERVER_FULL);
      return;
    }
    ghost var seated := table.sessions[..];
    SeatFoundAgain(ss, sockfd);
    var executed, _ := HandleProtocol(conn, sockfd, users, table);
    LinesServed(stream, conn.reliable, users, sockfd, ss, executed);
    ServeKeepsOthers(executed, users, sockfd, seated);
    FindSessionByShape(seated, table.sessions[..], sockfd);
    table.RemoveSession(sockfd);
  }
}
