/** HW7/TCP-multithread-main/TCP_Server/protocol/protocol.c: which commands a byte
    stream means. Nothing here depends on how the stream is cut into chunks. */
module Framing {
  import opened CStrings
  import opened Sessions

  const MAX_BUFFER := 4096

  /** A line the server executes: it fits the buffer with its newline, and strchr
      can reach the newline because no NUL comes first. */
  predicate GoodLine(line: string) {
    '\n' !in line && NUL !in line && |line| < MAX_BUFFER - 1
  }

  predicate StartsGood(s: string) {
    var p := IndexOf(s, '\n'); p < |s| && GoodLine(s[..p])
  }

  function FirstLine(s: string): (line: string)
    requires StartsGood(s)
    ensures GoodLine(line)
  {
    s[..IndexOf(s, '\n')]
  }

  function Rest(s: string): (rest: string)
    requires StartsGood(s)
    ensures |rest| < |s|
  {
    s[IndexOf(s, '\n') + 1..]
  }

  lemma FirstThenRest(s: string)
    requires StartsGood(s)
    ensures s == FirstLine(s) + "\n" + Rest(s)
  {
  }

  /** The good lines at the front of the stream, up to the first thing that is not one. */
  function Lines(s: string): (lines: seq<string>)
    ensures forall l :: l in lines ==> GoodLine(l)
    decreases |s|
  {
    if StartsGood(s) then [FirstLine(s)] + Lines(Rest(s)) else []
  }

  /** What stays in the buffer and on the wire behind them. */
  function Tail(s: string): string
    decreases |s|
  {
    if StartsGood(s) then Tail(Rest(s)) else s
  }

  function Unlines(lines: seq<string>): string {
    if lines == [] then "" else lines[0] + "\n" + Unlines(lines[1..])
  }

  lemma UnlinesCons(line: string, lines: seq<string>, rest: string)
    ensures Unlines([line] + lines) + rest == line + "\n" + (Unlines(lines) + rest)
  {
    assert ([line] + lines)[1..] == lines;
  }

  /** Lines and Tail split the stream, and the tail starts with no good line. */
  lemma {:induction false} LinesSplit(s: string)
    ensures s == Unlines(Lines(s)) + Tail(s)
    ensures Lines(Tail(s)) == [] && Tail(Tail(s)) == Tail(s)
    decreases |s|
  {
    if StartsGood(s) {
      FirstThenRest(s);
      LinesSplit(Rest(s));
      UnlinesCons(FirstLine(s), Lines(Rest(s)), Tail(s));
    }
  }

  lemma LinesOfLine(line: string, rest: string)
    requires GoodLine(line)
    ensures Lines(line + "\n" + rest) == [line] + Lines(rest)
    ensures Tail(line + "\n" + rest) == Tail(rest)
  {
    var s := line + "\n" + rest;
    assert s[|line|] == '\n';
    IndexOfUnique(s, '\n', |line|);
    assert s[..|line|] == line && s[|line| + 1..] == rest;
  }

  /** It is the only such split: any stream of good lines and a rest that starts
      with none is read back as exactly those lines. */
  lemma {:induction false} LinesUnique(lines: seq<string>, tail: string)
    requires forall l :: l in lines ==> GoodLine(l)
    requires Lines(tail) == []
    ensures Lines(Unlines(lines) + tail) == lines && Tail(Unlines(lines) + tail) == tail
  {
    if lines == [] {
      assert Unlines(lines) + tail == tail;
    } else {
      LinesUnique(lines[1..], tail);
      LinesOfLine(lines[0], Unlines(lines[1..]) + tail);
      assert [lines[0]] + lines[1..] == lines;
      UnlinesCons(lines[0], lines[1..], tail);
    }
  }

  /** Where a stream is cut does not matter: frame the first part, keep its tail in
      front of the second part. */
  lemma {:induction false} LinesOfCut(a: string, b: string)
    ensures Lines(a + b) == Lines(a) + Lines(Tail(a) + b)
    ensures Tail(a + b) == Tail(Tail(a) + b)
    decreases |a|
  {
    if StartsGood(a) {
      var line, rest := FirstLine(a), Rest(a);
      FirstThenRest(a);
      assert a + b == line + "\n" + (rest + b);
      LinesOfLine(line, rest + b);
      LinesOfCut(rest, b);
      assert Lines(a) == [line] + Lines(rest) && Tail(a) == Tail(rest);
    }
  }

  /** One trailing '\r' of a line is dropped. */
  function Stripped(line: string): string {
    if line != "" && line[|line| - 1] == '\r' then line[..|line| - 1] else line
  }

  /** A word of at most 9 characters and, behind white space, the rest of the line up to
      511 characters; what is not there stays empty. */
  function Fields(line: string): (f: (string, string))
    ensures |f.0| <= 9 && NoSpace(f.0)
    ensures |f.1| < MAX_NAME && '\n' !in f.1 && (f.1 != "" ==> !IsSpace(f.1[0]))
  {
    var s := SkipSpaces(line);
    var cmd := Word(s, 9);
    if cmd == "" then ("", "")
    else
      var t := SkipSpaces(s[|cmd|..]);
      var n := IndexOf(t, '\n');
      (cmd, if n < MAX_NAME then t[..n] else t[..MAX_NAME - 1])
  }

  function Interpret(line: string): Request {
    var f := Fields(line);
    if f.0 == "USER" then USER(f.1)
    else if f.0 == "POST" then POST(f.1)
    else if f.0 == "BYE" then BYE
    else Undefined
  }

  /** The command in a line of the stream. */
  function CommandOf(line: string): Request {
    Interpret(Stripped(line))
  }

  /** A user name that starts with a non-space and fits arg reaches processUSER
      unchanged, trailing spaces included. */
  lemma UserLineRead(name: string)
    requires name != "" && !IsSpace(name[0]) && '\n' !in name && |name| < MAX_NAME
    ensures Interpret("USER " + name) == USER(name)
  {
    var line := "USER " + name;
    SkipNoSpaces(line);
    assert line == "USER" + (" " + name);
    WordOfPrefix("USER", " " + name, 9);
    assert line[4..] == " " + name;
    SkipOneSpace(name);
    IndexOfUnique(name, '\n', |name|);
  }

  function UserReply(code: int): string {
    match code
    case 110 => "110 Login successful\n"
    case 211 => "211 Account is blocked\n"
    case 212 => "212 Account does not exist\n"
    case 213 => "213 Already logged in\n"
    case 214 => "214 Account is already" + " logged in on another client\n"
    case _ => "300 Undefined command\n"
  }

  function ReplyText(req: Request, code: int): string {
    match req
    case USER(_) => UserReply(code)
    case POST(_) =>
      if code == 120 then "120 Post message successful\n"
      else if code == 221 then "221 You must login first\n" else "300 Undefined command\n"
    case BYE =>
      if code == 130 then "130 Logout successful\n"
      else if code == 221 then "221 You must login first\n" else "300 Undefined command\n"
    case Undefined => "300 Undefined command\n"
  }

  const WELCOME := "100 Welcome to server\n"
  const SERVER_FULL := "500 Server full\n"

  datatype Served = Served(replies: seq<string>, local: Local, sessions: seq<Session>)

  /** One command more. */
  function Answer(before: Served, req: Request, users: seq<User>, fd: int): Served {
    var out := Execute(req, before.local, users, fd, before.sessions);
    Served(before.replies + [ReplyText(req, out.code)], out.local, out.sessions)
  }

  /** What a connection is answered for its lines, and what that does to the table,
      when no other connection acts in between. */
  function Serve(lines: seq<string>, users: seq<User>, fd: int, ss: seq<Session>): Served {
    if lines == [] then Served([WELCOME], Local(false, -1), ss)
    else Answer(Serve(lines[..|lines| - 1], users, fd, ss), CommandOf(lines[|lines| - 1]), users, fd)
  }

  lemma ServeAppend(lines: seq<string>, line: string, users: seq<User>, fd: int, ss: seq<Session>)
    ensures Serve(lines + [line], users, fd, ss) ==
            Answer(Serve(lines, users, fd, ss), CommandOf(line), users, fd)
  {
    assert (lines + [line])[..|lines|] == lines;
  }
}
