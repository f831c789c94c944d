/** HW4, client and server together: one upload over a connection, with every receive,
    send and close a step of its own. The command may be sent in part, the body goes
    in pieces of any size, the server receives chunks of any size, and the client may
    die and the server's socket fail at any point. */
module UploadProtocol {
  import opened ConnBuf
  import opened CStrings
  import opened Counting
  import opened LineReading
  import opened Numerals
  import opened UploadCommand
  import opened UploadReplies
  import opened Wrappers

  /** Where process_file_upload is. */
  datatype ClientPc = AwaitWelcome | SendCommand | AwaitConfirm | SendBody | AwaitVerdict | Finished | Dead

  /** Where handle_client_connection is. `GotLine` has a line from read_line,
      `Receiving` is in receive_file_with_buf with `file` written so far. */
  datatype ServerPc =
    | Greeting | ReadingLine | GotLine(line: string)
    | Receiving(line: string, upload: Upload, file: string) | Closed

  /** `command` is what process_file_upload has printed; `cmdSent` bytes of it and
      `bodySent` of the file are sent; `wire` holds the bytes under way, `buf` those in
      the server's buffer. `replies` are those the client has not read, `said` all that
      were sent, and `verdict` is the final reply the client has read. */
  datatype State = State(
    name: string, content: string, command: string,
    client: ClientPc, cmdSent: nat, bodySent: nat,
    wire: string, wireClosed: bool, replies: seq<Reply>,
    server: ServerPc, buf: string, stored: Option<(string, string)>,
    verdict: Option<Reply>, said: seq<Reply>)

  datatype Action =
    | ReadReply | ReadEnd | SendSomeCommand(n: nat) | SendSomeBody(n: nat) | Shutdown | ClientDies
    | Greet | Receive(n: nat) | EndOfLine | EndOfStream | Answer(parsed: Option<Upload>)
    | ReceiveBody(n: nat) | Finish(told: bool) | ServerFails(told: bool)

  /** The file name is the end of a C string of at most 511 characters without a newline. */
  predicate Parameters(s: State) {
    && '\n' !in s.name && NUL !in s.name && |s.name| < 512 && |s.content| < 0x8000_0000_0000_0000
    && s.command == Command(s.name, |s.content|)
  }

  predicate Init(s: State) {
    && Parameters(s)
    && s.client == AwaitWelcome && s.cmdSent == 0 && s.bodySent == 0
    && s.wire == "" && !s.wireClosed && s.replies == []
    && s.server == Greeting && s.buf == "" && s.stored == None
    && s.verdict == None && s.said == []
  }

  /** What may happen next, but for what an answer depends on. */
  predicate Possible(s: State, a: Action) {
    match a
    case ReadReply => s.client in {AwaitWelcome, AwaitConfirm, AwaitVerdict} && s.replies != []
    case ReadEnd => s.client in {AwaitWelcome, AwaitConfirm, AwaitVerdict} && s.replies == [] && s.server == Closed
    case SendSomeCommand(n) => s.client == SendCommand && 1 <= n <= |s.command|
    case SendSomeBody(n) => s.client == SendBody && 1 <= n && s.bodySent + n <= |s.content|
    case Shutdown => s.client == SendBody && s.bodySent == |s.content|
    case ClientDies => s.client !in {Finished, Dead}
    case Greet => s.server == Greeting
    case Receive(n) => s.server == ReadingLine && '\n' !in s.buf && 1 <= n <= Min(|s.wire|, BUFF_SIZE - |s.buf|)
    case EndOfLine => s.server == ReadingLine && ('\n' in s.buf || |s.buf| == BUFF_SIZE)
    case EndOfStream =>
      s.server == ReadingLine && '\n' !in s.buf && |s.buf| < BUFF_SIZE && s.wire == "" && s.wireClosed
    case Answer(_) => s.server.GotLine?
    case ReceiveBody(n) =>
      s.server.Receiving? && |s.server.file| < s.server.upload.size
      && 1 <= n <= Min(|s.wire|, Min(BUFF_SIZE, s.server.upload.size - |s.server.file|))
    case Finish(_) =>
      s.server.Receiving? && (|s.server.file| >= s.server.upload.size || (s.wire == "" && s.wireClosed))
    case ServerFails(_) => s.server != Closed
  }

  /** The server answers what parse_upload_command makes of the line. */
  predicate Enabled(s: State, a: Action) {
    Possible(s, a) && (a.Answer? ==> a.parsed == Parse(s.server.line))
  }

  /** The client looks for "+OK" in the first reply after the command only. */
  function OnReply(s: State, r: Reply): ClientPc {
    match s.client
    case AwaitWelcome => SendCommand
    case AwaitConfirm => if Positive(r) then SendBody else Dead
    case _ => Finished
  }

  /** The server sends a reply. */
  function Says(s: State, r: Reply): State {
    s.(replies := s.replies + [r], said := s.said + [r])
  }

  /** The server ends the connection with a last reply, if its send succeeds. */
  function Ends(s: State, told: bool, r: Reply): State {
    if told then Says(s, r).(server := Closed) else s.(server := Closed)
  }

  function Step(s: State, a: Action): State
    requires Possible(s, a)
  {
    match a
    case ReadReply =>
      var pc := OnReply(s, s.replies[0]);
      s.(client := pc, replies := s.replies[1..], wireClosed := s.wireClosed || pc in {Finished, Dead},
         verdict := if s.client == AwaitVerdict then Some(s.replies[0]) else s.verdict)
    case ReadEnd => s.(client := Dead, wireClosed := true)
    case SendSomeCommand(n) => s.(client := AwaitConfirm, cmdSent := n, wire := s.wire + s.command[..n])
    case SendSomeBody(n) => s.(bodySent := s.bodySent + n, wire := s.wire + s.content[s.bodySent..s.bodySent + n])
    case Shutdown => s.(client := AwaitVerdict, wireClosed := true)
    case ClientDies => s.(client := Dead, wireClosed := true)
    case Greet => Says(s, Welcome).(server := ReadingLine)
    case Receive(n) => s.(buf := s.buf + s.wire[..n], wire := s.wire[n..])
    case EndOfLine =>
      var r := ReadResult(0, s.buf, BUFF_SIZE);
      s.(server := GotLine(r.0.text), buf := r.1)
    case EndOfStream =>
      if s.buf == "" then s.(server := Closed)
      else s.(server := GotLine(s.buf[..Min(|s.buf|, BUFF_SIZE - 1)]), buf := "")
    case Answer(u) =>
      if u == None then Ends(s, true, InvalidCommand)
      else Accepted(s, u.value)
    case ReceiveBody(n) =>
      s.(server := s.server.(file := s.server.file + s.wire[..n]), wire := s.wire[n..])
    case Finish(told) =>
      var Receiving(_, u, file) := s.server;
      if |file| == u.size
      then Ends(s, told, Success).(stored := Some((u.name, file)))
      else Ends(s, told, UploadFailed)
    case ServerFails(told) =>
      Ends(s, told && s.server.Receiving?, UploadFailed)
  }

  // ----- the command on the wire -----

  /** The command and its newline fit the buffers, and the only newline is its last
      byte. */
  predicate Framed(command: string) {
    && 0 < |command| < BUFF_SIZE
    && forall j :: 0 <= j < |command| ==> (command[j] == '\n' <==> j == |command| - 1)
  }

  lemma CommandFramed(s: State)
    requires Parameters(s)
    ensures Framed(s.command)
  {
    Pow10Grows(0);
    Pow10Grows(4);
    Pow10Grows(8);
    Pow10Grows(12);
    Pow10Grows(16);
    DecimalLength(|s.content|, 20);
    NewlineIsLast(s.name, |s.content|);
  }

  lemma NewlineIsLast(name: string, size: nat)
    requires '\n' !in name
    ensures var c := Command(name, size);
            forall j :: 0 <= j < |c| ==> (c[j] == '\n' <==> j == |c| - 1)
  {
    var d := Decimal(size);
    var clean := Fields(name, d);
    var c := Command(name, size);
    forall j | 0 <= j < |clean|
      ensures c[j] != '\n'
    {
      assert c[j] == clean[j] && clean[j] in clean;
      assert clean[j] in KEYWORD || clean[j] == ' ' || clean[j] in name || clean[j] in d;
    }
  }

  // ----- the inductive invariant -----

  /** The client has been told to send the file. */
  predicate Confirmed(s: State) {
    s.client in {SendBody, AwaitVerdict, Finished} || s.bodySent > 0
  }

  predicate ClientInv(s: State) {
    && s.cmdSent <= |s.command| && s.bodySent <= |s.content|
    && (s.client in {AwaitWelcome, SendCommand} ==> s.cmdSent == 0 && s.bodySent == 0)
    && (s.client == AwaitConfirm ==> s.bodySent == 0)
    && (s.client in {AwaitVerdict, Finished} ==> s.bodySent == |s.content|)
    && (s.wireClosed <==> s.client in {AwaitVerdict, Finished, Dead})
  }

  predicate GreetingInv(s: State) {
    && s.client in {AwaitWelcome, Dead} && s.replies == [] && s.buf == "" && s.wire == ""
    && s.cmdSent == 0 && s.bodySent == 0
  }

  predicate ReadingInv(s: State)
    requires s.cmdSent <= |s.command|
  {
    && !Confirmed(s) && s.buf + s.wire == s.command[..s.cmdSent]
    && (s.client == AwaitWelcome ==> s.replies == [Welcome])
    && (s.client in {SendCommand, AwaitConfirm} ==> s.replies == [])
  }

  predicate GotLineInv(s: State, line: string)
    requires s.cmdSent <= |s.command|
  {
    && !Confirmed(s) && s.buf == "" && s.wire == "" && line == s.command[..s.cmdSent]
    && ((s.client == AwaitConfirm && s.cmdSent == |s.command| && s.replies == []) || s.client == Dead)
  }

  /** What the server understood, for a name the protocol can carry: the right name
      and size, or, from a command cut short, the right name and no false size 0. */
  predicate Understood(s: State, u: Upload) {
    && ValidName(u.name)
    && (ValidName(s.name) ==>
          && u.name == s.name && (u.size == 0 ==> s.content == "")
          && (s.cmdSent == |s.command| ==> u.size == |s.content|))
  }

  predicate ReceivingInv(s: State, u: Upload, file: string)
    requires s.bodySent <= |s.content|
  {
    && s.buf == "" && Understood(s, u)
    && |file| <= u.size && file + s.wire == s.content[..s.bodySent]
    && (s.cmdSent == |s.command| || (s.client == Dead && s.bodySent == 0))
    && (s.client == AwaitConfirm ==> s.replies == [Confirm])
    && (s.client in {SendBody, AwaitVerdict} ==> s.replies == [])
    && s.client in {AwaitConfirm, SendBody, AwaitVerdict, Dead}
  }

  /** The client waits for the confirmation while the server still reads the command,
      so the server's buffer is empty when it starts on the file. */
  predicate PhaseInv(s: State)
    requires ClientInv(s)
  {
    match s.server
    case Greeting => GreetingInv(s)
    case ReadingLine => ReadingInv(s)
    case GotLine(line) => GotLineInv(s, line)
    case Receiving(_, u, file) => ReceivingInv(s, u, file)
    case Closed => true
  }

  /** What is stored on success. */
  predicate StoredInv(s: State) {
    && (s.server != Closed ==> s.stored == None)
    && (Success in s.replies || s.verdict == Some(Success) ==> s.stored.Some?)
    && (s.stored.Some? ==>
          ValidName(s.stored.value.0) && (ValidName(s.name) ==> s.stored.value == (s.name, s.content)))
  }

  predicate Inv(s: State) {
    Framed(s.command) && ClientInv(s) && PhaseInv(s) && StoredInv(s)
  }

  lemma InitInv(s: State)
    requires Init(s)
    ensures Inv(s)
  {
    CommandFramed(s);
  }

  // ----- every step keeps it -----

  /** A line that ends in the buffer is the whole command, and nothing is behind it. */
  lemma WholeCommand(s: State)
    requires Inv(s) && Possible(s, EndOfLine)
    ensures s.buf == s.command && s.cmdSent == |s.command| && s.wire == ""
    ensures ReadResult(0, s.buf, BUFF_SIZE) == (Line(s.command), "")
  {
    assert s.buf + s.wire == s.command[..s.cmdSent];
    assert '\n' in s.buf;
    var p := IndexOf(s.buf, '\n');
    assert s.buf[p] == s.command[p];
    assert s.buf == s.command;
    assert s.buf[..|s.buf|] == s.buf && s.buf[|s.buf|..] == "";
  }

  lemma EndOfLineInv(s: State)
    requires Inv(s) && Possible(s, EndOfLine)
    ensures Inv(Step(s, EndOfLine))
  {
    WholeCommand(s);
    assert s.command[..|s.command|] == s.command;
  }

  lemma EndOfStreamInv(s: State)
    requires Inv(s) && Possible(s, EndOfStream)
    ensures Inv(Step(s, EndOfStream))
  {
    assert s.buf + "" == s.buf;
    assert s.buf[..|s.buf|] == s.buf;
  }

  lemma ParseUnderstood(s: State, line: string)
    requires Parameters(s) && Framed(s.command) && s.cmdSent <= |s.command| && line == s.command[..s.cmdSent]
    ensures Parse(line).Some? ==> Understood(s, Parse(line).value)
  {
    hide Parse;
    if ValidName(s.name) {
      CutCommand(s.name, |s.content|, s.cmdSent);
      if s.cmdSent == |s.command| {
        assert line == s.command;
        ParseInvertsCommand(s.name, |s.content|);
      }
    }
  }

  /** The state after a good command. */
  function Accepted(s: State, u: Upload): State
    requires s.server.GotLine?
  {
    var n := FromLeftover(|s.buf|, u.size);
    Says(s, Confirm).(server := Receiving(s.server.line, u, s.buf[..n]), buf := s.buf[n..])
  }

  lemma AnswerInv(s: State, u: Option<Upload>)
    requires Parameters(s) && Inv(s) && Enabled(s, Answer(u))
    ensures Inv(Step(s, Answer(u)))
  {
    hide Parse;
    ParseUnderstood(s, s.server.line);
    if u.Some? {
      AnsweredInv(s, u.value);
    } else {
      RefusedInv(s);
    }
  }

  lemma RefusedInv(s: State)
    requires Inv(s) && s.server.GotLine?
    ensures Inv(Ends(s, true, InvalidCommand))
  {
  }

  /** The (int) cast does no harm: nothing is left over when the server starts on the file. */
  lemma AnsweredInv(s: State, u: Upload)
    requires Inv(s) && s.server.GotLine? && Understood(s, u)
    ensures s.buf == "" && FromLeftover(|s.buf|, u.size) == 0
    ensures Inv(Accepted(s, u))
  {
    assert s.content[..0] == "";
  }

  /** A success means the right bytes. */
  lemma FinishInv(s: State, told: bool)
    requires Inv(s) && Possible(s, Finish(told))
    ensures Inv(Step(s, Finish(told)))
  {
    var Receiving(_, u, file) := s.server;
    if |file| == u.size && ValidName(s.name) {
      assert file + s.wire == s.content[..s.bodySent];
      assert file == s.content;
    }
  }

  lemma BodyInv(s: State, n: nat)
    requires Inv(s) && Possible(s, ReceiveBody(n))
    ensures Inv(Step(s, ReceiveBody(n)))
  {
    assert (s.server.file + s.wire[..n]) + s.wire[n..] == s.server.file + s.wire;
  }

  lemma SendBodyInv(s: State, n: nat)
    requires Inv(s) && Possible(s, SendSomeBody(n))
    ensures Inv(Step(s, SendSomeBody(n)))
  {
    var piece := s.content[s.bodySent..s.bodySent + n];
    assert s.content[..s.bodySent] + piece == s.content[..s.bodySent + n];
    if s.server.Receiving? {
      assert s.server.file + (s.wire + piece) == (s.server.file + s.wire) + piece;
    }
  }

  lemma SendCommandInv(s: State, n: nat)
    requires Inv(s) && Possible(s, SendSomeCommand(n))
    ensures Inv(Step(s, SendSomeCommand(n)))
  {
    if s.server == ReadingLine {
      assert s.buf + s.wire == "";
      assert s.buf + (s.wire + s.command[..n]) == s.command[..n];
    }
  }

  lemma ReceiveInv(s: State, n: nat)
    requires Inv(s) && Possible(s, Receive(n))
    ensures Inv(Step(s, Receive(n)))
  {
    assert (s.buf + s.wire[..n]) + s.wire[n..] == s.buf + s.wire;
  }

  lemma ClientStepInv(s: State, a: Action)
    requires Inv(s) && Possible(s, a) && (a.ReadReply? || a.ReadEnd? || a.Shutdown? || a.ClientDies?)
    ensures Inv(Step(s, a))
  {
  }

  lemma StepInv(s: State, a: Action)
    requires Parameters(s) && Inv(s) && Enabled(s, a)
    ensures Inv(Step(s, a)) && Parameters(Step(s, a))
  {
    hide Parse;
    match a
    case EndOfLine => EndOfLineInv(s);
    case EndOfStream => EndOfStreamInv(s);
    case Answer(u) => AnswerInv(s, u);
    case Finish(told) => FinishInv(s, told);
    case ReceiveBody(n) => BodyInv(s, n);
    case SendSomeBody(n) => SendBodyInv(s, n);
    case SendSomeCommand(n) => SendCommandInv(s, n);
    case Receive(n) => ReceiveInv(s, n);
    case Greet =>
    case ServerFails(_) =>
    case _ => ClientStepInv(s, a);
  }
}
