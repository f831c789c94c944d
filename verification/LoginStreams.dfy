/** The login server with its connections' byte streams: what handlers execute and
    answer, under any interleaving of the handlers and any cut of every stream into
    chunks. */
module LoginStreams {
  import opened CStrings
  import opened EventLog
  import opened Framing
  import opened Sessions
  import Server = LoginServer
  import Runs = LoginRuns

  /** `stream` is all that the client will ever send, `incoming` what the handler has
      not received of it, `buffer` what it has received and not executed. `lines` are
      the lines executed so far; `ended` says that the receive loop has come to the
      end of the stream or of the buffer, and not to a failed receive. `texts` are the
      texts sent to the client, `answer` is the one made last. */
  datatype Conn = Conn(
    stream: string, incoming: string, buffer: string, lines: seq<string>, ended: bool,
    texts: seq<string>, answer: string)

  function NewConnection(stream: string): Conn {
    Conn(stream, stream, "", [], false, [], "")
  }

  datatype State = State(server: Server.State, conns: seq<Conn>)

  datatype Action =
    | Accept(fd: int, stream: string) | Receive(c: nat, n: nat) | Execute(c: nat)
    | Leave(c: nat, failed: bool) | Other(a: Server.Action)

  ghost predicate Init(s: State) {
    Server.Init(s.server) && s.conns == []
  }

  predicate Serving(s: State, c: nat) {
    c < |s.conns| && Server.At(s.server, c, Server.Serving)
  }

  /** A handler executes the complete lines in its buffer before it receives again. */
  predicate Enabled(s: State, a: Action) {
    match a
    case Accept(fd, _) => Server.Enabled(s.server, Server.Accept(fd))
    case Receive(c, n) =>
      && Serving(s, c) && !StartsGood(s.conns[c].buffer)
      && 1 <= n <= |s.conns[c].incoming| && n < MAX_BUFFER - |s.conns[c].buffer|
    case Execute(c) => Serving(s, c) && StartsGood(s.conns[c].buffer)
    case Leave(c, failed) =>
      && Serving(s, c) && !StartsGood(s.conns[c].buffer)
      && (failed || s.conns[c].incoming == "" || |s.conns[c].buffer| == MAX_BUFFER - 1)
    case Other(b) => Server.Enabled(s.server, b) && (b.AddSession? || b.Send? || b.RemoveSession? || b.Close?)
  }

  /** The step of the server that an action makes, if any. */
  function ServerActions(s: State, a: Action): seq<Server.Action>
    requires Enabled(s, a)
  {
    match a
    case Accept(fd, _) => [Server.Accept(fd)]
    case Receive(_, _) => []
    case Execute(c) => [Server.Command(c, CommandOf(FirstLine(s.conns[c].buffer)))]
    case Leave(c, _) => [Server.Hangup(c)]
    case Other(b) => [b]
  }

  function NextConns(s: State, a: Action): seq<Conn>
    requires Enabled(s, a)
  {
    match a
    case Accept(_, stream) => s.conns + [NewConnection(stream)]
    case Receive(c, n) =>
      var x := s.conns[c];
      s.conns[c := x.(buffer := x.buffer + x.incoming[..n], incoming := x.incoming[n..])]
    case Execute(c) =>
      var x := s.conns[c];
      var line := FirstLine(x.buffer);
      s.conns[c := x.(buffer := Rest(x.buffer), lines := x.lines + [line], answer := AnswerTo(s, c, CommandOf(line)))]
    case Leave(c, failed) => s.conns[c := s.conns[c].(ended := !failed)]
    case Other(AddSession(c)) => Sends(s.conns, c, if FreeSlot(s.server.sessions) == -1 then SERVER_FULL else WELCOME)
    case Other(Send(c)) => if c < |s.conns| then Sends(s.conns, c, s.conns[c].answer) else s.conns
    case Other(_) => s.conns
  }

  function Sends(conns: seq<Conn>, c: nat, text: string): seq<Conn> {
    if c < |conns| then conns[c := conns[c].(texts := conns[c].texts + [text])] else conns
  }

  /** The reply to a command that is performed now. */
  function AnswerTo(s: State, c: nat, req: Request): string
    requires Serving(s, c)
  {
    var h := s.server.handlers[c];
    ReplyText(req, Sessions.Execute(req, h.local, s.server.users, h.fd, s.server.sessions).code)
  }

  function Step(s: State, a: Action): State
    requires Enabled(s, a)
  {
    var b := ServerActions(s, a);
    State(if b == [] then s.server else Server.Step(s.server, b[0]), NextConns(s, a))
  }

  // ----- what a connection has executed -----

  predicate ConnInv(x: Conn) {
    && |x.buffer| < MAX_BUFFER
    && Lines(x.stream) == x.lines + Lines(x.buffer + x.incoming)
    && Tail(x.stream) == Tail(x.buffer + x.incoming)
    && (x.ended ==> Lines(x.buffer + x.incoming) == [])
  }

  predicate Inv(s: State) {
    && |s.conns| == |s.server.handlers|
    && (forall c :: 0 <= c < |s.conns| ==> ConnInv(s.conns[c]))
    && (forall c :: 0 <= c < |s.conns| && s.conns[c].ended ==> HasLeft(s.server.handlers[c]))
  }

  predicate HasLeft(h: Server.Handler) {
    h.pc.Leaving? || h.pc.Closing? || h.pc.Closed?
  }

  lemma ExecuteConn(x: Conn, answer: string)
    requires ConnInv(x) && StartsGood(x.buffer)
    ensures ConnInv(x.(buffer := Rest(x.buffer), lines := x.lines + [FirstLine(x.buffer)], answer := answer))
  {
    hide Lines, Tail, FirstLine, Rest;
    var line, rest := FirstLine(x.buffer), Rest(x.buffer);
    FirstThenRest(x.buffer);
    assert x.buffer + x.incoming == line + "\n" + (rest + x.incoming);
    LinesOfLine(line, rest + x.incoming);
  }

  lemma ReceiveConn(x: Conn, n: nat)
    requires ConnInv(x) && n <= |x.incoming| && n < MAX_BUFFER - |x.buffer|
    ensures ConnInv(x.(buffer := x.buffer + x.incoming[..n], incoming := x.incoming[n..]))
  {
    assert (x.buffer + x.incoming[..n]) + x.incoming[n..] == x.buffer + x.incoming;
  }

  /** A handler that leaves without a failed receive has no line left to execute. */
  lemma NoLineLeft(x: Conn)
    requires |x.buffer| < MAX_BUFFER && !StartsGood(x.buffer)
    requires x.incoming == "" || |x.buffer| == MAX_BUFFER - 1
    ensures Lines(x.buffer + x.incoming) == []
  {
    var s := x.buffer + x.incoming;
    var p := IndexOf(s, '\n');
    if p < |x.buffer| {
      assert forall j :: 0 <= j < p ==> x.buffer[j] == s[j];
      IndexOfUnique(x.buffer, '\n', p);
      assert s[..p] == x.buffer[..p];
    }
  }

  /** No handler comes back once it has left, and handlers only join at the end. */
  lemma ServerStepKeeps(s: Server.State, b: Server.Action)
    requires Server.Enabled(s, b)
    ensures var t := Server.Step(s, b);
            && |t.handlers| == |s.handlers| + (if b.Accept? then 1 else 0)
            && (forall c :: 0 <= c < |s.handlers| && HasLeft(s.handlers[c]) ==> HasLeft(t.handlers[c]))
            && (b.Hangup? ==> HasLeft(t.handlers[b.c]))
  {
  }

  lemma NextConnsInv(s: State, a: Action)
    requires Inv(s) && Enabled(s, a)
    ensures forall c :: 0 <= c < |NextConns(s, a)| ==> ConnInv(NextConns(s, a)[c])
  {
    hide CommandOf, AnswerTo, FirstLine, Rest, StartsGood;
    hide ConnInv, NextConns;
    forall c: nat | c < |NextConns(s, a)|
      ensures ConnInv(NextConns(s, a)[c])
    {
      NextConnInv(s, a, c);
    }
  }

  lemma NextConnInv(s: State, a: Action, c: nat)
    requires Inv(s) && Enabled(s, a) && c < |NextConns(s, a)|
    ensures ConnInv(NextConns(s, a)[c])
  {
    hide ConnInv, FirstLine, Rest, AnswerTo, CommandOf;
    match a
    case Accept(_, stream) => NewConn(stream);
    case Receive(d, n) => ReceiveConn(s.conns[d], n);
    case Execute(d) => ExecuteConn(s.conns[d], NextConns(s, a)[d].answer);
    case Leave(d, failed) => LeaveConn(s.conns[d], failed);
    case Other(b) => TextsKeepConn(s);
  }

  lemma TextsKeepConn(s: State)
    requires Inv(s)
    ensures forall c, texts :: 0 <= c < |s.conns| ==> ConnInv(s.conns[c].(texts := texts))
  {
  }

  lemma NewConn(stream: string)
    ensures ConnInv(NewConnection(stream))
  {
    hide Lines, Tail;
    assert "" + stream == stream;
  }

  lemma LeaveConn(x: Conn, failed: bool)
    requires ConnInv(x) && !StartsGood(x.buffer)
    requires failed || x.incoming == "" || |x.buffer| == MAX_BUFFER - 1
    ensures ConnInv(x.(ended := !failed))
  {
    if !failed {
      NoLineLeft(x);
    }
  }

  /** Only a leaving handler's stream has ended. */
  lemma NextConnsEnded(s: State, a: Action)
    requires Inv(s) && Enabled(s, a)
    ensures var t := NextConns(s, a);
            && |t| == |s.conns| + (if a.Accept? then 1 else 0)
            && forall c :: 0 <= c < |t| && t[c].ended ==>
                 c < |s.conns| && (s.conns[c].ended || (a.Leave? && a.c == c))
  {
    hide CommandOf, AnswerTo, FirstLine, Rest, StartsGood;
  }

  lemma StepInv(s: State, a: Action)
    requires Inv(s) && Enabled(s, a)
    ensures Inv(Step(s, a))
  {
    hide Server.Step, ConnInv, NextConns, HasLeft;
    NextConnsInv(s, a);
    NextConnsEnded(s, a);
    var b := ServerActions(s, a);
    if b != [] {
      ServerStepKeeps(s.server, b[0]);
    }
  }

  // ----- runs -----

  predicate IsRun(states: seq<State>, acts: seq<Action>) {
    && |states| == |acts| + 1
    && forall k :: 0 <= k < |acts| ==> Enabled(states[k], acts[k]) && states[k + 1] == Step(states[k], acts[k])
  }

  ghost predicate RunOf(states: seq<State>, acts: seq<Action>) {
    IsRun(states, acts) && Init(states[0])
  }

  /** A served connection can always go on: with a complete line, with more bytes in any
      piece that fits, or, when there are none or the buffer is full, to its end. A
      receive may fail at any time. */
  lemma ConnectionMoves(s: State, c: nat)
    requires Inv(s) && Serving(s, c)
    ensures StartsGood(s.conns[c].buffer) ==> Enabled(s, Execute(c))
    ensures !StartsGood(s.conns[c].buffer) ==>
              var x := s.conns[c];
              && (forall n: nat :: 1 <= n <= |x.incoming| && n < MAX_BUFFER - |x.buffer| ==>
                    Enabled(s, Receive(c, n)))
              && (x.incoming == "" || |x.buffer| == MAX_BUFFER - 1 ==> Enabled(s, Leave(c, false)))
              && Enabled(s, Leave(c, true))
  {
  }

  /** The other steps of the server are as possible as in it, and a new connection may
      bring any stream. */
  lemma ServerMoves(s: State, b: Server.Action, stream: string)
    requires Server.Enabled(s.server, b) && !b.Command? && !b.Hangup?
    ensures Enabled(s, if b.Accept? then Accept(b.fd, stream) else Other(b))
  {
  }

  lemma EndedNext(s: State, a: Action, c: nat)
    requires Inv(s) && Enabled(s, a) && c < |NextConns(s, a)|
    ensures NextConns(s, a)[c].ended <==> a == Leave(c, false) || (c < |s.conns| && s.conns[c].ended)
  {
    hide CommandOf, AnswerTo, FirstLine, Rest, StartsGood, ConnInv;
  }

  lemma EndedStep(s: State, a: Action, c: nat)
    requires Inv(s) && Enabled(s, a) && c < |Step(s, a).conns|
    ensures Step(s, a).conns[c].ended <==> a == Leave(c, false) || (c < |s.conns| && s.conns[c].ended)
  {
    EndedNext(s, a, c);
  }

  lemma StepAt(states: seq<State>, acts: seq<Action>, n: nat)
    requires RunOf(states, acts) && 0 < n <= |acts|
    ensures |states| == |acts| + 1
    ensures Enabled(states[n - 1], acts[n - 1]) && states[n] == Step(states[n - 1], acts[n - 1])
  {
  }

  ghost predicate LeftCleanly(acts: seq<Action>, c: nat, n: nat)
    requires n <= |acts|
  {
    exists j :: 0 <= j < n && acts[j] == Leave(c, false)
  }

  lemma LeftCleanlyStep(acts: seq<Action>, c: nat, n: nat)
    requires 0 < n <= |acts|
    ensures LeftCleanly(acts, c, n) <==> LeftCleanly(acts, c, n - 1) || acts[n - 1] == Leave(c, false)
  {
  }

  /** A connection has ended exactly if its handler left without a failed receive. */
  lemma {:induction false} EndedIff(states: seq<State>, acts: seq<Action>, c: nat, n: nat)
    requires RunOf(states, acts) && n <= |acts| && c < |states[n].conns|
    ensures states[n].conns[c].ended <==> LeftCleanly(acts, c, n)
  {
    if n > 0 {
      LeftCleanlyStep(acts, c, n);
      StatesInv(states, acts, n - 1);
      StepAt(states, acts, n);
      hide Inv, Enabled, Step, RunOf, LeftCleanly;
      EndedStep(states[n - 1], acts[n - 1], c);
      if c < |states[n - 1].conns| {
        EndedIff(states, acts, c, n - 1);
      } else {
        NoLeaveBefore(states, acts, c, n - 1);
      }
    }
  }

  lemma {:induction false} StatesInv(states: seq<State>, acts: seq<Action>, n: nat)
    requires RunOf(states, acts) && n <= |acts|
    ensures Inv(states[n])
  {
    if n > 0 {
      StatesInv(states, acts, n - 1);
      hide Inv, Enabled, Step;
      assert states[n] == Step(states[n - 1], acts[n - 1]);
      StepInv(states[n - 1], acts[n - 1]);
    }
  }

  /** A connection that is not there yet has not been left. */
  lemma {:induction false} NoLeaveBefore(states: seq<State>, acts: seq<Action>, c: nat, n: nat)
    requires RunOf(states, acts) && n <= |acts| && |states[n].conns| <= c
    ensures !LeftCleanly(acts, c, n)
  {
    if n > 0 {
      LeftCleanlyStep(acts, c, n);
      StepAt(states, acts, n);
      hide Enabled, Step, RunOf, LeftCleanly;
      ConnsGrow(states[n - 1], acts[n - 1]);
      NoLeaveBefore(states, acts, c, n - 1);
    }
  }

  lemma ConnsGrow(s: State, a: Action)
    requires Enabled(s, a)
    ensures |s.conns| <= |Step(s, a).conns|
    ensures a.Leave? ==> a.c < |s.conns|
  {
    NextConnsGrow(s, a);
  }

  lemma NextConnsGrow(s: State, a: Action)
    requires Enabled(s, a)
    ensures |s.conns| <= |NextConns(s, a)|
    ensures a.Leave? ==> a.c < |s.conns|
  {
    hide AnswerTo, FirstLine, Rest, Server.Enabled;
  }

  /** The commands decided for connection `c`, in order. */
  function Decided(acts: seq<Server.Action>, c: nat): seq<Request> {
    if acts == [] then []
    else
      var a := acts[|acts| - 1];
      Decided(acts[..|acts| - 1], c) + if a.Command? && a.c == c then [a.req] else []
  }

  lemma DecidedAppend(acts: seq<Server.Action>, a: Server.Action, c: nat)
    ensures Decided(acts + [a], c) == Decided(acts, c) + if a.Command? && a.c == c then [a.req] else []
  {
    assert (acts + [a])[..|acts|] == acts;
  }

  function Commands(lines: seq<string>): (cs: seq<Request>)
    ensures |cs| == |lines| && forall k :: 0 <= k < |lines| ==> cs[k] == CommandOf(lines[k])
  {
    seq(|lines|, k requires 0 <= k < |lines| => CommandOf(lines[k]))
  }

  lemma CommandsAppend(lines: seq<string>, line: string)
    ensures Commands(lines + [line]) == Commands(lines) + [CommandOf(line)]
  {
    hide CommandOf;
  }

  lemma CommandsPrefix(lines: seq<string>, more: seq<string>)
    ensures Commands(lines) <= Commands(lines + more)
  {
    hide CommandOf;
  }

  /** The commands decided so far are those of the lines executed so far. */
  ghost predicate InStep(s: State, acts: seq<Server.Action>) {
    && (forall c: nat :: c < |s.conns| ==> Decided(acts, c) == Commands(s.conns[c].lines))
    && (forall c: nat :: |s.conns| <= c ==> Decided(acts, c) == [])
  }

  function CodeOf(e: Event): int {
    if e.Reply? then e.code else 0
  }

  /** The texts of replies to the first commands. */
  function ReplyTexts(cmds: seq<Request>, replies: seq<Event>): seq<string>
    requires |replies| <= |cmds|
  {
    seq(|replies|, k requires 0 <= k < |replies| <= |cmds| => ReplyText(cmds[k], CodeOf(replies[k])))
  }

  /** What a client has been sent: nothing before its handler has started, one line if it
      was turned away, and else the welcome and a text for each reply sent. */
  predicate TextsOk(x: Conn, h: Server.Handler, cmds: seq<Request>, replies: seq<Event>) {
    || (h.pc == Server.Starting && x.texts == [] && cmds == [] && replies == [])
    || ((h.pc == Server.Rejected || h.pc == Server.Closed) && x.texts == [SERVER_FULL] && cmds == [] && replies == [])
    || (&& h.pc != Server.Starting && h.pc != Server.Rejected
        && |cmds| == |replies| + (if h.pc.Answering? then 1 else 0)
        && x.texts == [WELCOME] + ReplyTexts(cmds, replies)
        && (h.pc.Answering? ==> x.answer == ReplyText(cmds[|replies|], CodeOf(h.pc.reply))))
  }

  ghost predicate Answered(s: State, acts: seq<Server.Action>) {
    && |s.conns| == |s.server.handlers|
    && (forall c: nat :: c < |s.conns| ==>
          TextsOk(s.conns[c], s.server.handlers[c], Decided(acts, c), Replies(s.server.sent, c)))
    && (forall c: nat :: |s.conns| <= c ==> Decided(acts, c) == [] && Replies(s.server.sent, c) == [])
  }

  lemma ReplyTextsAppend(cmds: seq<Request>, replies: seq<Event>, e: Event)
    requires |cmds| == |replies| + 1
    ensures ReplyTexts(cmds, replies + [e]) ==
            ReplyTexts(cmds, replies) + [ReplyText(cmds[|replies|], CodeOf(e))]
  {
    hide ReplyText;
  }

  lemma ReplyTextsCommand(cmds: seq<Request>, replies: seq<Event>, cmd: Request)
    requires |cmds| == |replies|
    ensures ReplyTexts(cmds + [cmd], replies) == ReplyTexts(cmds, replies)
  {
    hide ReplyText;
  }

  /** How a step of the server changes what concerns one connection. */
  lemma ServerStepReplies(s: Server.State, b: Server.Action, c: nat)
    requires Server.Inv(s) && Server.Enabled(s, b)
    ensures var t := Server.Step(s, b);
            && (b.Send? && b.c == c ==>
                  Replies(t.sent, c) == Replies(s.sent, c) + [s.handlers[c].pc.reply])
            && (!(b.Send? && b.c == c) ==> Replies(t.sent, c) == Replies(s.sent, c))
  {
    var t := Server.Step(s, b);
    if b.Send? {
      RepliesAppend(s.sent, s.handlers[b.c].pc.reply, c);
    } else if b.RemoveSession? {
      RepliesAppend(s.sent, EventLog.Gone(b.c), c);
    }
  }

  function PcOf(s: Server.State, c: nat): Server.Pc
    requires c < |s.handlers|
  {
    s.handlers[c].pc
  }

  /** The steps that send something to connection `c` or make its next answer. */
  predicate Concerns(a: Action, c: nat) {
    a == Execute(c) || a == Other(Server.AddSession(c)) || a == Other(Server.Send(c))
  }

  /** Other steps on the connection only lead on towards its end. */
  predicate LeadsOn(pc: Server.Pc, pc': Server.Pc) {
    || pc' == pc
    || (pc == Server.Serving && pc' == Server.Leaving) || (pc == Server.Leaving && pc' == Server.Closing)
    || ((pc == Server.Closing || pc == Server.Rejected) && pc' == Server.Closed)
  }

  lemma OtherStepsTexts(s: State, a: Action, c: nat)
    requires Enabled(s, a) && c < |s.conns| == |s.server.handlers| && !Concerns(a, c)
    ensures var s' := Step(s, a);
            && |s'.conns| == |s'.server.handlers| == |s.conns| + (if a.Accept? then 1 else 0)
            && s'.conns[c].texts == s.conns[c].texts && s'.conns[c].answer == s.conns[c].answer
            && LeadsOn(PcOf(s.server, c), PcOf(s'.server, c))
  {
    hide CommandOf, AnswerTo, FirstLine, Rest, StartsGood;
    NextTexts(s, a, c);
    hide NextConns;
    var b := ServerActions(s, a);
    if b != [] {
      OtherStepsPc(s.server, b[0], c);
    }
  }

  lemma NextTexts(s: State, a: Action, c: nat)
    requires Enabled(s, a) && c < |s.conns| && !Concerns(a, c)
    ensures var t := NextConns(s, a);
            && |t| == |s.conns| + (if a.Accept? then 1 else 0)
            && t[c].texts == s.conns[c].texts && t[c].answer == s.conns[c].answer
  {
    hide CommandOf, AnswerTo, FirstLine, Rest, StartsGood;
  }

  lemma OtherStepsPc(s: Server.State, b: Server.Action, c: nat)
    requires Server.Enabled(s, b) && c < |s.handlers|
    requires !(b.AddSession? && b.c == c) && !(b.Command? && b.c == c) && !(b.Send? && b.c == c)
    ensures var t := Server.Step(s, b);
            && |t.handlers| == |s.handlers| + (if b.Accept? then 1 else 0)
            && LeadsOn(PcOf(s, c), PcOf(t, c))
  {
  }

  lemma OtherStepsOk(x: Conn, h: Server.Handler, x': Conn, h': Server.Handler, cmds: seq<Request>, replies: seq<Event>)
    requires TextsOk(x, h, cmds, replies)
    requires x'.texts == x.texts && x'.answer == x.answer && LeadsOn(h.pc, h'.pc)
    ensures TextsOk(x', h', cmds, replies)
  {
  }

  lemma StartAnswered(s: State, c: nat, acts: seq<Server.Action>)
    requires var a := Other(Server.AddSession(c)); Enabled(s, a) && Answered(s, acts) && c < |s.conns|
    ensures var s' := Step(s, Other(Server.AddSession(c)));
            && |s'.conns| == |s'.server.handlers| == |s.conns|
            && TextsOk(s'.conns[c], s'.server.handlers[c], Decided(acts, c), Replies(s.server.sent, c))
  {
    hide CommandOf, AnswerTo, FirstLine, Rest, StartsGood;
    var s' := Step(s, Other(Server.AddSession(c)));
    assert TextsOk(s.conns[c], s.server.handlers[c], Decided(acts, c), Replies(s.server.sent, c));
    assert s.conns[c].texts == [] && ReplyTexts([], []) == [];
    if FreeSlot(s.server.sessions) == -1 {
      assert s'.conns[c].texts == [SERVER_FULL];
    } else {
      assert s'.conns[c].texts == [WELCOME] + [];
    }
  }

  lemma ExecuteAnswered(s: State, c: nat, acts: seq<Server.Action>)
    requires Enabled(s, Execute(c)) && Answered(s, acts)
    ensures var s', cmd := Step(s, Execute(c)), CommandOf(FirstLine(s.conns[c].buffer));
            && |s'.conns| == |s'.server.handlers| == |s.conns|
            && TextsOk(s'.conns[c], s'.server.handlers[c], Decided(acts, c) + [cmd], Replies(s.server.sent, c))
  {
    hide CommandOf, ReplyTexts, FirstLine, Rest, StartsGood, ReplyText;
    var cmds, replies, cmd := Decided(acts, c), Replies(s.server.sent, c), CommandOf(FirstLine(s.conns[c].buffer));
    assert TextsOk(s.conns[c], s.server.handlers[c], cmds, replies);
    ReplyTextsCommand(cmds, replies, cmd);
    assert (cmds + [cmd])[|cmds|] == cmd;
  }

  lemma SendAnswered(s: State, c: nat, acts: seq<Server.Action>)
    requires Enabled(s, Other(Server.Send(c))) && Answered(s, acts)
    ensures var s' := Step(s, Other(Server.Send(c)));
            && |s'.conns| == |s'.server.handlers| == |s.conns|
            && TextsOk(s'.conns[c], s'.server.handlers[c], Decided(acts, c),
                       Replies(s.server.sent, c) + [s.server.handlers[c].pc.reply])
  {
    hide CommandOf, AnswerTo, FirstLine, Rest, StartsGood;
    hide ReplyTexts;
    var cmds, replies, e := Decided(acts, c), Replies(s.server.sent, c), s.server.handlers[c].pc.reply;
    assert TextsOk(s.conns[c], s.server.handlers[c], cmds, replies);
    ReplyTextsAppend(cmds, replies, e);
    var texts := ReplyTexts(cmds, replies);
    assert ([WELCOME] + texts) + [s.conns[c].answer] == [WELCOME] + (texts + [s.conns[c].answer]);
  }

  lemma OneAnswered(s: State, a: Action, acts: seq<Server.Action>, c: nat)
    requires Server.Inv(s.server) && Enabled(s, a) && Answered(s, acts) && c < |s.conns|
    ensures var s', acts' := Step(s, a), acts + ServerActions(s, a);
            && |s'.conns| == |s'.server.handlers| == |s.conns| + (if a.Accept? then 1 else 0)
            && TextsOk(s'.conns[c], s'.server.handlers[c], Decided(acts', c), Replies(s'.server.sent, c))
  {
    DecidedAfter(s, a, acts, c);
    RepliesAfter(s, a, c);
    hide Step, TextsOk, Decided, Replies, Server.Inv;
    if a == Execute(c) {
      ExecuteAnswered(s, c, acts);
    } else if a == Other(Server.AddSession(c)) {
      StartAnswered(s, c, acts);
    } else if a == Other(Server.Send(c)) {
      SendAnswered(s, c, acts);
    } else {
      OtherStepsTexts(s, a, c);
      var s' := Step(s, a);
      OtherStepsOk(s.conns[c], s.server.handlers[c], s'.conns[c], s'.server.handlers[c],
                   Decided(acts, c), Replies(s.server.sent, c));
    }
  }

  lemma DecidedAfter(s: State, a: Action, acts: seq<Server.Action>, c: nat)
    requires Enabled(s, a)
    ensures Decided(acts + ServerActions(s, a), c) ==
            if a == Execute(c) then Decided(acts, c) + [CommandOf(FirstLine(s.conns[c].buffer))]
            else Decided(acts, c)
  {
    hide CommandOf, AnswerTo, FirstLine, Rest, StartsGood;
    var b := ServerActions(s, a);
    if b == [] {
      assert acts + b == acts;
    } else {
      DecidedAppend(acts, b[0], c);
    }
  }

  lemma RepliesAfter(s: State, a: Action, c: nat)
    requires Server.Inv(s.server) && Enabled(s, a)
    ensures Replies(Step(s, a).server.sent, c) ==
            if a == Other(Server.Send(c)) then Replies(s.server.sent, c) + [s.server.handlers[c].pc.reply]
            else Replies(s.server.sent, c)
  {
    hide NextConns, Server.Inv, CommandOf, AnswerTo, FirstLine, Rest, StartsGood;
    var b := ServerActions(s, a);
    if b != [] {
      ServerStepReplies(s.server, b[0], c);
    }
  }

  lemma AcceptAnswered(s: State, a: Action)
    requires Enabled(s, a) && a.Accept? && |s.conns| == |s.server.handlers|
    ensures var s', c := Step(s, a), |s.conns|;
            && |s'.conns| == |s'.server.handlers| == c + 1
            && TextsOk(s'.conns[c], s'.server.handlers[c], [], [])
  {
    hide CommandOf, AnswerTo, FirstLine, Rest, StartsGood;
  }

  lemma SizesAfter(s: State, a: Action)
    requires Enabled(s, a) && |s.conns| == |s.server.handlers|
    ensures var s' := Step(s, a);
            |s'.conns| == |s'.server.handlers| == |s.conns| + (if a.Accept? then 1 else 0)
  {
    hide CommandOf, AnswerTo, FirstLine, Rest, StartsGood;
  }

  lemma StepAnswered(s: State, a: Action, acts: seq<Server.Action>)
    requires Server.Inv(s.server) && Enabled(s, a) && Answered(s, acts)
    ensures Answered(Step(s, a), acts + ServerActions(s, a))
  {
    hide Step, TextsOk, Decided, Replies, Server.Inv, ServerActions;
    var s', acts' := Step(s, a), acts + ServerActions(s, a);
    SizesAfter(s, a);
    if a.Accept? {
      AcceptAnswered(s, a);
    }
    forall c: nat
      ensures c < |s'.conns| ==>
                TextsOk(s'.conns[c], s'.server.handlers[c], Decided(acts', c), Replies(s'.server.sent, c))
      ensures |s'.conns| <= c ==> Decided(acts', c) == [] && Replies(s'.server.sent, c) == []
    {
      if c < |s.conns| {
        OneAnswered(s, a, acts, c);
      } else {
        NobodyAnswered(s, a, acts, c);
      }
    }
  }

  lemma NobodyAnswered(s: State, a: Action, acts: seq<Server.Action>, c: nat)
    requires Server.Inv(s.server) && Enabled(s, a) && Answered(s, acts) && |s.conns| <= c
    ensures Decided(acts + ServerActions(s, a), c) == [] && Replies(Step(s, a).server.sent, c) == []
  {
    hide CommandOf, AnswerTo, FirstLine, Rest, StartsGood;
    DecidedAfter(s, a, acts, c);
    RepliesAfter(s, a, c);
  }

  lemma ExtendRun(states: seq<Server.State>, acts: seq<Server.Action>, a: Server.Action)
    requires Runs.RunOf(states, acts) && Server.Enabled(states[|acts|], a)
    ensures Runs.RunOf(states + [Server.Step(states[|acts|], a)], acts + [a]) && |states| == |acts| + 1
  {
  }

  lemma LinesAfter(s: State, a: Action, c: nat)
    requires Enabled(s, a) && c < |s.conns|
    ensures var t := NextConns(s, a);
            && |t| == |s.conns| + (if a.Accept? then 1 else 0)
            && t[c].lines == s.conns[c].lines + (if a == Execute(c) then [FirstLine(s.conns[c].buffer)] else [])
            && (a.Accept? ==> t[|s.conns|].lines == [])
  {
    hide CommandOf, AnswerTo, FirstLine, Rest, StartsGood;
  }

  lemma OneInStep(s: State, a: Action, acts: seq<Server.Action>, c: nat)
    requires Inv(s) && Enabled(s, a) && InStep(s, acts)
    ensures var conns, cmds := NextConns(s, a), Decided(acts + ServerActions(s, a), c);
            cmds == if c < |conns| then Commands(conns[c].lines) else []
  {
    hide CommandOf, AnswerTo, FirstLine, Rest, StartsGood, Commands, NextConns, ServerActions;
    DecidedAfter(s, a, acts, c);
    if c < |s.conns| {
      LinesAfter(s, a, c);
      hide Inv, Enabled;
      assert s.conns[c].lines + [] == s.conns[c].lines;
      if a == Execute(c) {
        CommandsAppend(s.conns[c].lines, FirstLine(s.conns[c].buffer));
      }
    } else {
      NewInStep(s, a, c);
    }
  }

  lemma NewInStep(s: State, a: Action, c: nat)
    requires Enabled(s, a) && |s.conns| <= c
    ensures c < |NextConns(s, a)| ==> Commands(NextConns(s, a)[c].lines) == []
    ensures a != Execute(c)
  {
    hide Commands, AnswerTo, CommandOf, FirstLine, Rest, StartsGood, NextConns;
    NewConnsLines(s, a);
  }

  lemma NewConnsLines(s: State, a: Action)
    requires Enabled(s, a)
    ensures |NextConns(s, a)| == |s.conns| + if a.Accept? then 1 else 0
    ensures a.Accept? ==> NextConns(s, a)[|s.conns|].lines == []
  {
    hide AnswerTo, FirstLine, Rest, CommandOf, StartsGood;
  }

  lemma StepInStep(s: State, a: Action, acts: seq<Server.Action>)
    requires Inv(s) && Enabled(s, a) && InStep(s, acts)
    ensures InStep(Step(s, a), acts + ServerActions(s, a))
  {
    hide Commands, NextConns, Inv, Enabled, Decided, ServerActions, Server.Step;
    forall c: nat
      ensures Decided(acts + ServerActions(s, a), c) ==
              if c < |Step(s, a).conns| then Commands(Step(s, a).conns[c].lines) else []
    {
      OneInStep(s, a, acts, c);
    }
  }

  /** The server's part of a run is a run of the login server. */
  lemma {:induction false} ServerRun(states: seq<State>, acts: seq<Action>, n: nat)
    returns (serverStates: seq<Server.State>, serverActs: seq<Server.Action>)
    requires RunOf(states, acts) && n <= |acts|
    ensures Runs.RunOf(serverStates, serverActs) && serverStates[|serverActs|] == states[n].server
    ensures Inv(states[n]) && InStep(states[n], serverActs) && Answered(states[n], serverActs)
  {
    if n == 0 {
      serverStates, serverActs := [states[0].server], [];
    } else {
      serverStates, serverActs := ServerRun(states, acts, n - 1);
      assert states[n] == Step(states[n - 1], acts[n - 1]);
      serverStates, serverActs := ServerRunStep(states[n - 1], acts[n - 1], serverStates, serverActs);
    }
  }

  lemma ServerRunStep(s: State, a: Action, states: seq<Server.State>, acts: seq<Server.Action>)
    returns (states': seq<Server.State>, acts': seq<Server.Action>)
    requires Runs.RunOf(states, acts) && states[|acts|] == s.server
    requires Inv(s) && Enabled(s, a) && InStep(s, acts) && Answered(s, acts)
    ensures Runs.RunOf(states', acts') && states'[|acts'|] == Step(s, a).server
    ensures Inv(Step(s, a)) && InStep(Step(s, a), acts') && Answered(Step(s, a), acts')
  {
    Runs.RunInv(states, acts, |acts|);
    hide *;
    StepInv(s, a);
    StepInStep(s, a, acts);
    StepAnswered(s, a, acts);
    states' := ServerContinues(s, a, states, acts);
    acts' := acts + ServerActions(s, a);
  }

  lemma ServerContinues(s: State, a: Action, states: seq<Server.State>, acts: seq<Server.Action>)
    returns (states': seq<Server.State>)
    requires Runs.RunOf(states, acts) && states[|acts|] == s.server && Enabled(s, a)
    ensures var acts' := acts + ServerActions(s, a);
            Runs.RunOf(states', acts') && |states'| == |acts'| + 1 && states'[|acts'|] == Step(s, a).server
  {
    ServerActionsEnabled(s, a);
    hide Enabled, Server.Enabled, NextConns, ServerActions, Server.Step;
    var b := ServerActions(s, a);
    if b == [] {
      assert acts + b == acts;
      states' := states;
    } else {
      assert b == [b[0]];
      ExtendRun(states, acts, b[0]);
      states' := states + [Server.Step(s.server, b[0])];
    }
  }

  lemma ServerActionsEnabled(s: State, a: Action)
    requires Enabled(s, a)
    ensures var b := ServerActions(s, a); |b| <= 1 && (b != [] ==> Server.Enabled(s.server, b[0]))
  {
    hide CommandOf, AnswerTo, FirstLine, Rest, StartsGood;
  }

  /** For every interleaving of the handlers and every chunking of every stream: the
      login decisions are those of a run of the login server, in which the commands
      decided for a connection are those of the lines of its stream, in order. They
      are all of them once its receive loop has ended without a failed receive, and
      then exactly the stream's tail has not been executed. What a served client has
      been sent is the welcome and, for each of its first commands in order, the text of
      the reply that was decided and sent for it. */
  lemma StreamsDecideCommands(states: seq<State>, acts: seq<Action>, c: nat)
    returns (serverStates: seq<Server.State>, serverActs: seq<Server.Action>)
    requires RunOf(states, acts) && c < |states[|acts|].conns|
    ensures Runs.RunOf(serverStates, serverActs) && serverStates[|serverActs|] == states[|acts|].server
    ensures var x := states[|acts|].conns[c];
            && Decided(serverActs, c) <= Commands(Lines(x.stream))
            && (x.ended ==>
                  Decided(serverActs, c) == Commands(Lines(x.stream)) && x.buffer + x.incoming == Tail(x.stream))
    ensures var x, cmds, replies :=
              states[|acts|].conns[c], Decided(serverActs, c), Replies(states[|acts|].server.sent, c);
            || ((x.texts == [] || x.texts == [SERVER_FULL]) && cmds == [])
            || (|replies| <= |cmds| <= |replies| + 1 && x.texts == [WELCOME] + ReplyTexts(cmds, replies))
  {
    serverStates, serverActs := ServerRun(states, acts, |acts|);
    var x := states[|acts|].conns[c];
    assert ConnInv(x);
    var server := states[|acts|].server;
    assert TextsOk(x, server.handlers[c], Decided(serverActs, c), Replies(server.sent, c));
    CommandsPrefix(x.lines, Lines(x.buffer + x.incoming));
    if x.ended {
      assert x.lines + [] == x.lines;
      LinesSplit(x.buffer + x.incoming);
    }
  }
}
