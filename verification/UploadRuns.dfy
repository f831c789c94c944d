/** What HW4's upload promises over every run of client and server together. */
module UploadRuns {
  import opened ConnBuf
  import opened CStrings
  import opened LineReading
  import opened Numerals
  import opened UploadCommand
  import opened UploadProtocol
  import opened UploadReplies
  import opened Wrappers

  predicate IsRun(states: seq<State>, acts: seq<Action>) {
    && |states| == |acts| + 1
    && forall k :: 0 <= k < |acts| ==> Enabled(states[k], acts[k]) && states[k + 1] == Step(states[k], acts[k])
  }

  predicate RunOf(name: string, content: string, states: seq<State>, acts: seq<Action>) {
    IsRun(states, acts) && Init(states[0]) && states[0].name == name && states[0].content == content
  }

  lemma {:induction false} RunInv(name: string, content: string, states: seq<State>, acts: seq<Action>, k: nat)
    requires RunOf(name, content, states, acts) && k < |states|
    ensures Inv(states[k]) && Parameters(states[k])
    ensures states[k].name == name && states[k].content == content
  {
    hide Parse;
    if k == 0 {
      InitInv(states[0]);
    } else {
      RunInv(name, content, states, acts, k - 1);
      assert states[k] == Step(states[k - 1], acts[k - 1]);
      StepInv(states[k - 1], acts[k - 1]);
      StepKeepsFile(states[k - 1], acts[k - 1]);
    }
  }

  lemma StepKeepsFile(s: State, a: Action)
    requires Possible(s, a)
    ensures Step(s, a).name == s.name && Step(s, a).content == s.content && Step(s, a).command == s.command
  {
  }

  /** End to end: for any chunking, any partial sends, any death of the client or
      failure of the server's socket, and any file size, whatever a successful run
      stores is exactly the client's file under the client's name, if and only if
      that name is one the command can carry. And the client reads the success reply
      only of a run that stored something. */
  lemma UploadIsExact(name: string, content: string, states: seq<State>, acts: seq<Action>)
    requires RunOf(name, content, states, acts)
    ensures var s := states[|acts|];
            && (s.stored.Some? ==> (s.stored == Some((name, content)) <==> ValidName(name)))
            && (s.verdict == Some(Success) ==> s.stored.Some?)
  {
    hide Parse;
    RunInv(name, content, states, acts, |acts|);
  }

  /** The client waits for the confirmation before it sends the file, so there is
      never a leftover when the server casts the size to int. */
  lemma NoLeftoverAtCast(name: string, content: string, states: seq<State>, acts: seq<Action>, k: nat, size: nat)
    requires RunOf(name, content, states, acts) && k < |states| && states[k].server.GotLine?
    ensures CastSafe(|states[k].buf|, size)
  {
    hide Parse;
    RunInv(name, content, states, acts, k);
  }

  // ----- every run ends -----

  function ClientRank(pc: ClientPc): nat {
    match pc
    case AwaitWelcome => 5
    case SendCommand => 4
    case AwaitConfirm => 3
    case SendBody => 2
    case AwaitVerdict => 1
    case Finished => 0
    case Dead => 0
  }

  function ServerRank(pc: ServerPc): nat {
    match pc
    case Greeting => 4
    case ReadingLine => 3
    case GotLine(_) => 2
    case Receiving(_, _, _) => 1
    case Closed => 0
  }

  function Remaining(s: State): int {
    2 * (|s.command| - s.cmdSent + |s.content| - s.bodySent) + |s.wire| + ClientRank(s.client) + ServerRank(s.server)
  }

  predicate ByServer(a: Action) {
    || a.Greet? || a.Receive? || a.EndOfLine? || a.EndOfStream? || a.Answer? || a.ReceiveBody? || a.Finish?
    || a.ServerFails?
  }

  lemma ClientPays(s: State, a: Action)
    requires ClientInv(s) && Possible(s, a)
    requires !ByServer(a)
    ensures Remaining(Step(s, a)) < Remaining(s)
  {
  }

  lemma ReadingPays(s: State, a: Action)
    requires Possible(s, a) && (a.Greet? || a.Receive? || a.EndOfLine? || a.EndOfStream? || a.Answer?)
    ensures Remaining(Step(s, a)) < Remaining(s)
  {
    hide Parse, ReadResult, FromLeftover;
  }

  lemma ReceivingPays(s: State, a: Action)
    requires Possible(s, a) && (a.ReceiveBody? || a.Finish? || a.ServerFails?)
    ensures Remaining(Step(s, a)) < Remaining(s)
  {
    hide Parse, ReadResult, FromLeftover;
  }

  lemma ServerPays(s: State, a: Action)
    requires ClientInv(s) && Possible(s, a)
    requires ByServer(a)
    ensures Remaining(Step(s, a)) < Remaining(s)
  {
    hide Remaining, Step, Possible, ClientInv;
    if a.ReceiveBody? || a.Finish? || a.ServerFails? {
      ReceivingPays(s, a);
    } else {
      ReadingPays(s, a);
    }
  }

  lemma StepPays(s: State, a: Action)
    requires ClientInv(s) && Possible(s, a)
    ensures Remaining(Step(s, a)) < Remaining(s)
  {
    hide Parse;
    if ByServer(a) {
      ServerPays(s, a);
    } else {
      ClientPays(s, a);
    }
  }

  lemma {:induction false} RunPays(name: string, content: string, states: seq<State>, acts: seq<Action>, k: nat)
    requires RunOf(name, content, states, acts) && k < |states|
    ensures Remaining(states[k]) + k <= Remaining(states[0])
  {
    hide Parse;
    if k > 0 {
      RunPays(name, content, states, acts, k - 1);
      RunInv(name, content, states, acts, k - 1);
      assert states[k] == Step(states[k - 1], acts[k - 1]);
      StepPays(states[k - 1], acts[k - 1]);
    }
  }

  /** No run is longer than this, whatever fails. */
  lemma RunLengthBound(name: string, content: string, states: seq<State>, acts: seq<Action>)
    requires RunOf(name, content, states, acts)
    ensures |acts| <= 2 * (|Command(name, |content|)| + |content|) + 9
  {
    hide Parse;
    RunPays(name, content, states, acts, |acts|);
    RunInv(name, content, states, acts, |acts|);
  }

  // ----- runs without failures -----

  /** A side dies, a receive or a send fails, or the file cannot be written. */
  predicate Failure(a: Action) {
    a == ClientDies || a.ServerFails? || a == Finish(false)
  }

  predicate NoFailure(acts: seq<Action>) {
    forall k :: 0 <= k < |acts| ==> !Failure(acts[k])
  }

  /** Nothing can happen any more but a failure. */
  ghost predicate Stuck(s: State) {
    forall a :: Enabled(s, a) ==> Failure(a)
  }

  /** Holds while nothing fails and the name is valid. */
  predicate HealthyInv(s: State) {
    && s.client != Dead && ValidName(s.name)
    && (s.client == AwaitConfirm ==> s.cmdSent > 0)
    && (s.server.GotLine? || s.server.Receiving? || s.server == Closed ==> s.cmdSent == |s.command|)
    && (s.server.Receiving? ==> s.server.upload == Upload(s.name, |s.content|))
    && (s.server == Closed ==>
          && s.stored == Some((s.name, s.content))
          && (s.client == AwaitConfirm ==> s.replies == [Confirm, Success])
          && (s.client in {SendBody, AwaitVerdict} ==> s.replies == [Success])
          && (s.client == Finished ==> s.verdict == Some(Success))
          && s.client !in {AwaitWelcome, SendCommand})
    && (s.client == Finished ==> s.server == Closed)
  }

  lemma AnswerIsRight(s: State, u: Option<Upload>)
    requires Parameters(s) && Inv(s) && HealthyInv(s) && Enabled(s, Answer(u))
    ensures u == Some(Upload(s.name, |s.content|))
  {
    hide Parse;
    CommandParses(s, s.server.line);
  }

  lemma CommandParses(s: State, line: string)
    requires Parameters(s) && Framed(s.command) && ValidName(s.name)
    requires s.cmdSent == |s.command| && line == s.command[..s.cmdSent]
    ensures Parse(line) == Some(Upload(s.name, |s.content|))
  {
    assert line == s.command;
    ParseInvertsCommand(s.name, |s.content|);
  }

  lemma HealthyAnswer(s: State)
    requires Parameters(s) && Inv(s) && HealthyInv(s) && s.server.GotLine?
    ensures HealthyInv(Step(s, Answer(Some(Upload(s.name, |s.content|)))))
  {
  }

  lemma HealthyFinish(s: State)
    requires Parameters(s) && Inv(s) && HealthyInv(s) && Possible(s, Finish(true))
    ensures HealthyInv(Step(s, Finish(true)))
  {
    var Receiving(_, u, file) := s.server;
    assert file + s.wire == s.content[..s.bodySent];
    assert file == s.content;
  }

  lemma HealthyClient(s: State, a: Action)
    requires Inv(s) && HealthyInv(s) && Possible(s, a) && !ByServer(a) && !Failure(a)
    ensures HealthyInv(Step(s, a))
  {
  }

  lemma HealthyServer(s: State, a: Action)
    requires Inv(s) && HealthyInv(s) && Possible(s, a) && ByServer(a) && !Failure(a)
    requires !a.Answer? && !a.Finish? && !a.EndOfLine?
    ensures HealthyInv(Step(s, a))
  {
  }

  lemma HealthyStep(s: State, a: Action)
    requires Parameters(s) && Inv(s) && HealthyInv(s) && Enabled(s, a) && !Failure(a)
    ensures HealthyInv(Step(s, a))
  {
    hide Parse;
    match a
    case Answer(u) =>
      AnswerIsRight(s, u);
      HealthyAnswer(s);
    case Finish(_) => HealthyFinish(s);
    case EndOfLine => WholeCommand(s);
    case _ =>
      hide Step, HealthyInv, Inv;
      if ByServer(a) {
        HealthyServer(s, a);
      } else {
        HealthyClient(s, a);
      }
  }

  lemma InitHealthy(s: State)
    requires Init(s) && ValidName(s.name)
    ensures HealthyInv(s)
  {
  }

  lemma {:induction false} HealthyRun(name: string, content: string, states: seq<State>, acts: seq<Action>, k: nat)
    requires RunOf(name, content, states, acts) && NoFailure(acts) && ValidName(name) && k < |states|
    ensures HealthyInv(states[k])
  {
    hide Parse, Inv, HealthyInv, Step, Possible, ValidName, Init, Parameters;
    if k == 0 {
      InitHealthy(states[0]);
    } else {
      HealthyRun(name, content, states, acts, k - 1);
      RunInv(name, content, states, acts, k - 1);
      assert states[k] == Step(states[k - 1], acts[k - 1]);
      HealthyStep(states[k - 1], acts[k - 1]);
    }
  }

  lemma ReadingMoves(s: State) returns (a: Action)
    requires Inv(s) && HealthyInv(s) && s.server == ReadingLine
    requires s.client == AwaitConfirm ==> s.cmdSent == |s.command|
    ensures Possible(s, a) && !a.Answer? && !Failure(a)
  {
    if '\n' in s.buf {
      a := EndOfLine;
    } else if s.client == AwaitWelcome {
      a := ReadReply;
    } else if s.client == SendCommand {
      a := SendSomeCommand(1);
    } else {
      assert s.buf + s.wire == s.command;
      assert s.command[|s.command| - 1] == '\n';
      a := Receive(1);
    }
  }

  lemma ReceivingMoves(s: State) returns (a: Action)
    requires Inv(s) && HealthyInv(s) && s.server.Receiving?
    ensures Possible(s, a) && !a.Answer? && !Failure(a)
  {
    var Receiving(_, u, file) := s.server;
    if |file| >= u.size {
      a := Finish(true);
    } else if s.wire != "" {
      a := ReceiveBody(1);
    } else if s.client == AwaitConfirm {
      a := ReadReply;
    } else {
      assert file + s.wire == file;
      a := SendSomeBody(1);
    }
  }

  lemma ClosedMoves(s: State) returns (a: Action)
    requires Inv(s) && HealthyInv(s) && s.server == Closed && s.client != Finished
    ensures Possible(s, a) && !a.Answer? && !Failure(a)
  {
    if s.client == SendBody {
      a := if s.bodySent < |s.content| then SendSomeBody(1) else Shutdown;
    } else {
      a := ReadReply;
    }
  }

  /** The next thing that happens in a healthy state that is not finished. */
  lemma HealthyMoves(s: State) returns (a: Action)
    requires Inv(s) && HealthyInv(s) && s.client != Finished
    requires s.client == AwaitConfirm ==> s.cmdSent == |s.command|
    ensures Enabled(s, a) && !Failure(a)
  {
    hide Parse;
    match s.server
    case Greeting => a := Greet;
    case GotLine(_) => a := Answer(Parse(s.server.line));
    case ReadingLine => a := ReadingMoves(s);
    case Receiving(_, _, _) => a := ReceivingMoves(s);
    case Closed => a := ClosedMoves(s);
  }

  /** A run in which nothing fails, brought to its end, has stored the file and told
      the client so exactly when the one send of the command took all of it; the
      client does not look at how much send took, and else both sides wait forever. */
  lemma CompleteRunStores(name: string, content: string, states: seq<State>, acts: seq<Action>)
    requires RunOf(name, content, states, acts) && NoFailure(acts) && ValidName(name)
    requires Stuck(states[|acts|])
    ensures var s := states[|acts|];
            && (s.cmdSent == |s.command| <==> s.client == Finished)
            && (s.client == Finished <==> s.stored == Some((name, content)))
            && (s.client == Finished <==> s.verdict == Some(Success))
            && (s.client != Finished ==> s.client == AwaitConfirm && s.server == ReadingLine && s.replies == [])
  {
    hide Parse;
    var s := states[|acts|];
    RunInv(name, content, states, acts, |acts|);
    HealthyRun(name, content, states, acts, |acts|);
    if s.client != Finished {
      if s.client == AwaitConfirm ==> s.cmdSent == |s.command| {
        var a := HealthyMoves(s);
      }
      assert s.server != Greeting;
    }
  }

  // ----- when nothing can happen any more -----

  lemma ServerMoves(s: State) returns (a: Action)
    requires Inv(s) && s.client in {AwaitVerdict, Finished, Dead} && s.server != Closed
    ensures Enabled(s, a) && !Failure(a)
  {
    hide Parse, Framed, StoredInv;
    match s.server
    case Greeting => a := Greet;
    case ReadingLine =>
      BufferBound(s);
      a := if '\n' in s.buf then EndOfLine else if s.wire != "" then Receive(1) else EndOfStream;
    case GotLine(line) => a := Answer(Parse(line));
    case Receiving(_, u, file) =>
      a := if |file| < u.size && s.wire != "" then ReceiveBody(1) else Finish(true);
  }

  /** A server whose client has sent everything, or has gone, is not left waiting: only in
      front of a client that waits itself can it come to rest without having closed. */
  lemma ServerEnds(s: State)
    requires Inv(s) && s.client in {AwaitVerdict, Finished, Dead} && Stuck(s)
    ensures s.server == Closed
  {
    if s.server != Closed {
      var a := ServerMoves(s);
    }
  }

  lemma BufferBound(s: State)
    requires Inv(s) && s.server == ReadingLine
    ensures |s.buf| < BUFF_SIZE
  {
    assert |s.buf + s.wire| == s.cmdSent;
  }

  /** Both sides may send and receive in pieces of any size. */
  lemma PiecesAreArbitrary(s: State, n: nat)
    requires n >= 1
    ensures s.client == SendCommand && n <= |s.command| ==> Enabled(s, SendSomeCommand(n))
    ensures s.client == SendBody && s.bodySent + n <= |s.content| ==> Enabled(s, SendSomeBody(n))
    ensures s.server == ReadingLine && '\n' !in s.buf && n <= |s.wire| && |s.buf| + n <= BUFF_SIZE ==>
              Enabled(s, Receive(n))
    ensures s.server.Receiving? && n <= |s.wire| && n <= BUFF_SIZE && |s.server.file| + n <= s.server.upload.size ==>
              Enabled(s, ReceiveBody(n))
  {
  }

  /** Either side may fail at any time before it is done. */
  lemma FailuresPossible(s: State, told: bool)
    ensures s.client !in {Finished, Dead} ==> Enabled(s, ClientDies)
    ensures s.server != Closed ==> Enabled(s, ServerFails(told))
    ensures Possible(s, Finish(told)) <==> Possible(s, Finish(!told))
  {
  }

  // ----- what the replies mean -----

  /** What the client has not read is the end of what was said. */
  predicate SaidSuffix(s: State) {
    |s.replies| <= |s.said| && s.said[|s.said| - |s.replies|..] == s.replies
  }

  /** What has been said in each phase. */
  predicate SaidPhase(s: State) {
    match s.server
    case Greeting => s.said == []
    case ReadingLine => s.said == [Welcome]
    case GotLine(_) => s.said == [Welcome]
    case Receiving(_, _, _) => s.said == [Welcome, Confirm]
    case Closed =>
      || (s.stored == None && (s.said == [] || s.said == [Welcome] || s.said == [Welcome, InvalidCommand]))
      || s.said == [Welcome, Confirm]
      || (s.stored.Some? && s.said == [Welcome, Confirm, Success])
      || (s.stored == None && s.said == [Welcome, Confirm, UploadFailed])
  }

  lemma ClientSaysNothing(s: State, a: Action)
    requires Possible(s, a) && !ByServer(a)
    ensures var t := Step(s, a);
            && t.said == s.said && t.server == s.server && t.stored == s.stored
            && t.replies == if a == ReadReply then s.replies[1..] else s.replies
    ensures a == ReadReply ==> s.replies != []
  {
  }

  lemma PhaseKept(s: State, t: State)
    requires SaidPhase(s) && t.server == s.server && t.said == s.said && t.stored == s.stored
    ensures SaidPhase(t)
  {
  }

  lemma SaidByClient(s: State, a: Action)
    requires SaidSuffix(s) && SaidPhase(s) && Possible(s, a) && !ByServer(a)
    ensures SaidSuffix(Step(s, a)) && SaidPhase(Step(s, a)) && Step(s, a).said == s.said
  {
    ClientSaysNothing(s, a);
    hide Step, Possible, SaidPhase;
    PhaseKept(s, Step(s, a));
    if a == ReadReply {
      ReadOne(s.said, s.replies);
    }
  }

  lemma ReadOne(said: seq<Reply>, replies: seq<Reply>)
    requires 0 < |replies| <= |said| && said[|said| - |replies|..] == replies
    ensures said[|said| - |replies[1..]|..] == replies[1..]
  {
    var n := |said| - |replies|;
    assert said[n..][1..] == said[n + 1..];
  }

  /** The reply of a step of the server, if any. */
  function NextReply(s: State, a: Action): seq<Reply>
    requires Possible(s, a)
  {
    match a
    case Greet => [Welcome]
    case Answer(u) => [if u == None then InvalidCommand else Confirm]
    case Finish(told) =>
      if !told then [] else if |s.server.file| == s.server.upload.size then [Success] else [UploadFailed]
    case ServerFails(told) => if told && s.server.Receiving? then [UploadFailed] else []
    case _ => []
  }

  lemma ServerSays(s: State, a: Action)
    requires Possible(s, a) && ByServer(a)
    ensures Step(s, a).replies == s.replies + NextReply(s, a) && Step(s, a).said == s.said + NextReply(s, a)
  {
    assert s.replies + [] == s.replies && s.said + [] == s.said;
  }

  lemma SaidSuffixMore(s: State, t: State, more: seq<Reply>)
    requires SaidSuffix(s) && t.replies == s.replies + more && t.said == s.said + more
    ensures SaidSuffix(t)
  {
  }

  lemma SaidPhaseStep(s: State, a: Action)
    requires SaidPhase(s) && StoredInv(s) && Possible(s, a) && ByServer(a)
    ensures SaidPhase(Step(s, a))
  {
    ServerSays(s, a);
    assert s.said + [] == s.said;
  }

  lemma NextReplyMeans(s: State, a: Action)
    requires Possible(s, a)
    ensures InvalidCommand in NextReply(s, a) <==> Refuses(a)
    ensures Confirm in NextReply(s, a) <==> Accepts(a)
  {
  }

  lemma SaidByServer(s: State, a: Action)
    requires SaidSuffix(s) && SaidPhase(s) && StoredInv(s) && Possible(s, a) && ByServer(a)
    ensures SaidSuffix(Step(s, a)) && SaidPhase(Step(s, a))
    ensures InvalidCommand in Step(s, a).said <==> InvalidCommand in s.said || Refuses(a)
    ensures Confirm in Step(s, a).said <==> Confirm in s.said || Accepts(a)
  {
    SaidPhaseStep(s, a);
    ServerSays(s, a);
    NextReplyMeans(s, a);
    hide Step, Possible, StoredInv, SaidPhase, NextReply, Refuses, Accepts, ByServer;
    SaidSuffixMore(s, Step(s, a), NextReply(s, a));
  }

  predicate Refuses(a: Action) {
    a == Answer(None)
  }

  predicate Accepts(a: Action) {
    a.Answer? && a.parsed.Some?
  }

  /** In every run: the server refuses exactly when it has read no upload from a line, and
      confirms exactly when it has; a success is said only of a stored file, a failure
      only of one that is not stored, both only behind a confirmation; and a client is
      answered once for its command and once for its file at most. */
  lemma {:induction false} RepliesMean(
    name: string, content: string, states: seq<State>, acts: seq<Action>, k: nat)
    requires RunOf(name, content, states, acts) && k < |states|
    ensures SaidSuffix(states[k]) && SaidPhase(states[k])
    ensures InvalidCommand in states[k].said <==> exists j :: 0 <= j < k && Refuses(acts[j])
    ensures Confirm in states[k].said <==> exists j :: 0 <= j < k && Accepts(acts[j])
  {
    hide Parse, Inv, StoredInv, SaidSuffix, SaidPhase, Step, Possible, Init, Parameters, Refuses, Accepts;
    RunInv(name, content, states, acts, k);
    if k == 0 {
      InitSaid(states[0]);
    } else {
      RepliesMean(name, content, states, acts, k - 1);
      RunInv(name, content, states, acts, k - 1);
      SaidStep(states[k - 1], acts[k - 1], states[k]);
    }
  }

  lemma InitSaid(s: State)
    requires Init(s)
    ensures SaidSuffix(s) && SaidPhase(s) && s.said == []
  {
  }

  lemma SaidStep(s: State, a: Action, t: State)
    requires Inv(s) && SaidSuffix(s) && SaidPhase(s) && Enabled(s, a) && t == Step(s, a)
    ensures SaidSuffix(t) && SaidPhase(t)
    ensures InvalidCommand in t.said <==> InvalidCommand in s.said || Refuses(a)
    ensures Confirm in t.said <==> Confirm in s.said || Accepts(a)
  {
    assert StoredInv(s) && Possible(s, a);
    hide Parse, Inv, StoredInv, SaidSuffix, SaidPhase, Step, Possible, Enabled;
    if ByServer(a) {
      SaidByServer(s, a);
    } else {
      SaidByClient(s, a);
    }
  }

  /** Unless its socket fails, a server that has received anything of a command answers
      it, however little that is. */
  lemma {:induction false} CommandAnswered(
    name: string, content: string, states: seq<State>, acts: seq<Action>, k: nat)
    requires RunOf(name, content, states, acts) && k < |states|
    requires forall j :: 0 <= j < k ==> !acts[j].ServerFails?
    ensures states[k].server == Closed ==>
              states[k].cmdSent == 0 || exists j :: 0 <= j < k && (Refuses(acts[j]) || Accepts(acts[j]))
  {
    RepliesMean(name, content, states, acts, k);
    AnsweredUpTo(name, content, states, acts, k);
  }

  /** A connection that is closed without a failure was refused, confirmed, or empty. */
  predicate ClosedInv(s: State) {
    s.server == Closed && Confirm !in s.said && InvalidCommand !in s.said ==>
      s.cmdSent == 0 && s.client !in {AwaitWelcome, SendCommand}
  }

  lemma ClosedStep(s: State, a: Action)
    requires Inv(s) && SaidPhase(s) && ClosedInv(s) && Possible(s, a) && !a.ServerFails?
    ensures ClosedInv(Step(s, a))
  {
    hide StoredInv, Framed;
    if a == EndOfStream && s.buf == "" {
      assert |s.buf + s.wire| == s.cmdSent;
    }
  }

  lemma {:induction false} AnsweredUpTo(
    name: string, content: string, states: seq<State>, acts: seq<Action>, k: nat)
    requires RunOf(name, content, states, acts) && k < |states|
    requires forall j :: 0 <= j < k ==> !acts[j].ServerFails?
    ensures ClosedInv(states[k])
  {
    if k > 0 {
      AnsweredUpTo(name, content, states, acts, k - 1);
      RepliesMean(name, content, states, acts, k - 1);
      RunInv(name, content, states, acts, k - 1);
      assert states[k] == Step(states[k - 1], acts[k - 1]);
      hide Parse, Inv, SaidSuffix, SaidPhase, ClosedInv, Step, Possible, Init, Parameters;
      ClosedStep(states[k - 1], acts[k - 1]);
    }
  }

  // ----- uploads that are not accepted -----

  /** The server has not taken the command for an upload: the client has sent nothing of
      its file and has no confirmation to read. */
  predicate NotAccepted(s: State) {
    && s.bodySent == 0 && s.stored == None && !s.server.Receiving?
    && s.client in {AwaitWelcome, SendCommand, AwaitConfirm, Dead}
    && (s.client == AwaitWelcome ==> s.replies == [] || s.replies == [Welcome])
    && (s.client == SendCommand ==> s.replies == [])
    && (s.client == AwaitConfirm ==> s.replies == [] || s.replies == [InvalidCommand])
  }

  lemma NotAcceptedClient(s: State, a: Action)
    requires Inv(s) && NotAccepted(s) && Possible(s, a) && !ByServer(a)
    ensures NotAccepted(Step(s, a))
  {
  }

  lemma NotAcceptedServer(s: State, a: Action)
    requires Inv(s) && NotAccepted(s) && Possible(s, a) && ByServer(a) && !(a.Answer? && a.parsed.Some?)
    ensures NotAccepted(Step(s, a))
  {
  }

  lemma InitNotAccepted(s: State)
    requires Init(s)
    ensures NotAccepted(s)
  {
  }

  /** The client sends its file only to a server that has accepted the command, and
      nothing is stored for any other. */
  lemma {:induction false} BodyNeedsAcceptance(
    name: string, content: string, states: seq<State>, acts: seq<Action>, k: nat)
    requires RunOf(name, content, states, acts) && k < |states|
    requires forall j :: 0 <= j < k ==> !(acts[j].Answer? && acts[j].parsed.Some?)
    ensures NotAccepted(states[k])
  {
    hide Parse, Inv, NotAccepted, Step, Possible, Init, Parameters;
    if k == 0 {
      InitNotAccepted(states[0]);
    } else {
      BodyNeedsAcceptance(name, content, states, acts, k - 1);
      RunInv(name, content, states, acts, k - 1);
      assert states[k] == Step(states[k - 1], acts[k - 1]);
      if ByServer(acts[k - 1]) {
        NotAcceptedServer(states[k - 1], acts[k - 1]);
      } else {
        NotAcceptedClient(states[k - 1], acts[k - 1]);
      }
    }
  }

  /** The command was refused, and the client has been told so or is about to be. */
  predicate Refused(s: State) {
    && s.server == Closed && s.bodySent == 0 && s.stored == None
    && ((s.client == AwaitConfirm && s.replies == [InvalidCommand]) || s.client == Dead)
  }

  lemma RefusalRefuses(s: State)
    requires Inv(s) && s.server.GotLine?
    ensures Refused(Step(s, Answer(None)))
  {
  }

  lemma RefusedStays(s: State, a: Action)
    requires Refused(s) && Possible(s, a)
    ensures Refused(Step(s, a))
  {
  }

  /** A client whose command is refused never sends a byte of its file, nothing is ever
      stored, and when nothing can happen any more the client has given up. */
  lemma {:induction false} RefusedRun(
    name: string, content: string, states: seq<State>, acts: seq<Action>, j: nat, k: nat)
    requires RunOf(name, content, states, acts) && j < k < |states| && acts[j] == Answer(None)
    ensures Refused(states[k]) && (Stuck(states[k]) ==> states[k].client == Dead)
    decreases k
  {
    RunInv(name, content, states, acts, j);
    RefusedUpTo(name, content, states, acts, j, k);
    hide *;
    RefusedAtRest(states[k]);
  }

  lemma RefusedAtRest(s: State)
    requires Refused(s)
    ensures Stuck(s) ==> s.client == Dead
  {
    hide Parse;
    if s.client == AwaitConfirm {
      assert Enabled(s, ReadReply);
    }
  }

  lemma {:induction false} RefusedUpTo(
    name: string, content: string, states: seq<State>, acts: seq<Action>, j: nat, k: nat)
    requires RunOf(name, content, states, acts) && j < k < |states| && acts[j] == Answer(None)
    requires Inv(states[j])
    ensures Refused(states[k])
    decreases k
  {
    hide Parse, Inv, Refused, Step, Init, Parameters;
    assert states[k] == Step(states[k - 1], acts[k - 1]);
    if k == j + 1 {
      RefusalRefuses(states[j]);
    } else {
      RefusedUpTo(name, content, states, acts, j, k - 1);
      RefusedStays(states[k - 1], acts[k - 1]);
    }
  }

  // ----- runs that show what goes wrong -----

  lemma Extend(states: seq<State>, acts: seq<Action>, a: Action) returns (states': seq<State>, acts': seq<Action>)
    requires IsRun(states, acts) && NoFailure(acts)
    requires Enabled(states[|acts|], a) && !Failure(a)
    ensures IsRun(states', acts') && NoFailure(acts') && states'[0] == states[0]
    ensures |states| == |acts| + 1 && |states'| == |acts'| + 1 && states'[|acts'|] == Step(states[|acts|], a)
  {
    hide Parse;
    states' := states + [Step(states[|acts|], a)];
    acts' := acts + [a];
  }

  /** Client and server after the first `n` bytes of the command have been sent and
      received. */
  function Received(name: string, content: string, n: nat): State
    requires n <= |Command(name, |content|)|
  {
    var command := Command(name, |content|);
    State(name, content, command, AwaitConfirm, n, 0, "", false, [], ReadingLine, command[..n], None, None,
          [Welcome])
  }

  lemma CommandReceived(name: string, content: string, n: nat) returns (states: seq<State>, acts: seq<Action>)
    requires '\n' !in name && NUL !in name && |name| < 512 && |content| < 0x8000_0000_0000_0000
    requires 1 <= n <= |Command(name, |content|)|
    ensures RunOf(name, content, states, acts) && NoFailure(acts)
    ensures |states| == |acts| + 1 && states[|acts|] == Received(name, content, n) && Framed(Command(name, |content|))
  {
    hide Parse, Command;
    var command := Command(name, |content|);
    var s0 := State(name, content, command, AwaitWelcome, 0, 0, "", false, [], Greeting, "", None, None, []);
    InitInv(s0);
    states, acts := Extend([s0], [], Greet);
    states, acts := Extend(states, acts, ReadReply);
    var s := s0.(client := SendCommand, server := ReadingLine, said := [Welcome]);
    assert s0.said + [Welcome] == [Welcome];
    assert states[|acts|] == s;
    states, acts := SendAndReceive(states, acts, s, n);
  }

  lemma SendAndReceive(states: seq<State>, acts: seq<Action>, s: State, n: nat)
    returns (states': seq<State>, acts': seq<Action>)
    requires IsRun(states, acts) && NoFailure(acts) && states[|acts|] == s
    requires s.client == SendCommand && s.server == ReadingLine && s.wire == s.buf == ""
    requires 1 <= n <= |s.command| <= BUFF_SIZE
    ensures IsRun(states', acts') && NoFailure(acts') && |states'| == |acts'| + 1 && states'[0] == states[0]
    ensures states'[|acts'|] == s.(client := AwaitConfirm, cmdSent := n, buf := s.command[..n])
  {
    hide Parse, Command, IsRun, NoFailure;
    states', acts' := Extend(states, acts, SendSomeCommand(n));
    var t := s.(client := AwaitConfirm, cmdSent := n, wire := s.command[..n]);
    assert "" + s.command[..n] == s.command[..n];
    assert states'[|acts'|] == t;
    states', acts' := Extend(states', acts', Receive(n));
    assert t.wire[..n] == t.wire && t.wire[n..] == "";
  }

  /** Such a run exists for every file: the send takes one byte of the command, the
      server receives it, and nothing can happen any more. */
  lemma PartialCommandHangs(name: string, content: string) returns (states: seq<State>, acts: seq<Action>)
    requires '\n' !in name && NUL !in name && |name| < 512 && |content| < 0x8000_0000_0000_0000
    ensures RunOf(name, content, states, acts) && NoFailure(acts)
    ensures var s := states[|acts|];
            && Stuck(s) && s.cmdSent < |s.command| && s.stored == None
            && s.client == AwaitConfirm && s.server == ReadingLine
  {
    hide Parse, Command;
    CommandStart(name, |content|);
    states, acts := CommandReceived(name, content, 1);
  }

  lemma CommandStart(name: string, size: nat)
    ensures |Command(name, size)| >= 7 && Command(name, size)[0] == 'U'
  {
  }

  lemma LineReceived(s: State)
    requires Framed(s.command) && s.server == ReadingLine && s.buf == s.command
    ensures Possible(s, EndOfLine)
    ensures Step(s, EndOfLine) == s.(server := GotLine(s.command), buf := "")
  {
    var n := |s.command|;
    assert s.buf[n - 1] == '\n';
    IndexOfUnique(s.buf, '\n', n - 1);
    assert s.command[..n] == s.command;
  }

  /** A run that ends right behind a command of size 0. */
  lemma EmptyUploadRun(name: string, content: string, u: Upload) returns (states: seq<State>, acts: seq<Action>)
    requires '\n' !in name && NUL !in name && |name| < 512 && |content| < 0x8000_0000_0000_0000
    requires Parse(Command(name, |content|)) == Some(u) && u.size == 0
    ensures RunOf(name, content, states, acts) && NoFailure(acts)
    ensures var s := states[|acts|];
            && s.stored == Some((u.name, "")) && s.client == AwaitConfirm && s.bodySent == 0
            && s.replies == [Confirm, Success]
  {
    hide Parse, Command, IsRun, NoFailure;
    CommandStart(name, |content|);
    var n := |Command(name, |content|)|;
    states, acts := CommandReceived(name, content, n);
    var s := Received(name, content, n);
    assert s.buf == s.command;
    LineReceived(s);
    states, acts := Extend(states, acts, EndOfLine);
    states, acts := StoreNothing(states, acts, s.(server := GotLine(s.command), buf := ""), u);
  }

  lemma StoreNothing(states: seq<State>, acts: seq<Action>, s: State, u: Upload)
    returns (states': seq<State>, acts': seq<Action>)
    requires IsRun(states, acts) && NoFailure(acts) && states[|acts|] == s
    requires s.server.GotLine? && s.buf == "" && s.replies == [] && Parse(s.server.line) == Some(u) && u.size == 0
    ensures IsRun(states', acts') && NoFailure(acts') && |states'| == |acts'| + 1 && states'[0] == states[0]
    ensures states'[|acts'|] ==
            s.(server := Closed, stored := Some((u.name, "")), replies := [Confirm, Success],
               said := s.said + [Confirm, Success])
  {
    hide Parse, NoFailure;
    states', acts' := Extend(states, acts, Answer(Some(u)));
    var t := s.(server := Receiving(s.server.line, u, ""), replies := [Confirm], said := s.said + [Confirm]);
    assert s.buf[..0] == "" && s.buf[0..] == "" && s.replies + [Confirm] == [Confirm];
    assert states'[|acts'|] == t;
    states', acts' := Extend(states', acts', Finish(true));
    assert t.replies + [Success] == [Confirm, Success];
    assert t.said + [Success] == s.said + [Confirm, Success];
  }

  /** The client goes on to send its file, which nobody reads, and is told of a success. */
  lemma ClientIsTold(states: seq<State>, acts: seq<Action>) returns (states': seq<State>, acts': seq<Action>)
    requires IsRun(states, acts) && NoFailure(acts)
    requires var s := states[|acts|];
             s.client == AwaitConfirm && s.bodySent == 0 && s.content != "" && s.replies == [Confirm, Success]
    ensures IsRun(states', acts') && NoFailure(acts') && states'[0] == states[0]
    ensures states'[|acts'|].verdict == Some(Success) && states'[|acts'|].stored == states[|acts|].stored
  {
    hide Parse;
    var n := |states[|acts|].content|;
    states', acts' := Extend(states, acts, ReadReply);
    states', acts' := Extend(states', acts', SendSomeBody(n));
    states', acts' := Extend(states', acts', Shutdown);
    states', acts' := Extend(states', acts', ReadReply);
  }

  /** A name with a blank can be taken for another name and size: the upload of a
      three byte file called "a 0" stores an empty file called "a", and the client
      reads that it succeeded. */
  lemma BlankInNameStoresWrongFile() returns (states: seq<State>, acts: seq<Action>)
    ensures RunOf("a 0", "xyz", states, acts) && NoFailure(acts)
    ensures states[|acts|].stored == Some(("a", "")) && states[|acts|].verdict == Some(Success)
  {
    hide Parse;
    BlankParse();
    states, acts := EmptyUploadRun("a 0", "xyz", Upload("a", 0));
    RunInv("a 0", "xyz", states, acts, |acts|);
    states, acts := ClientIsTold(states, acts);
  }

  lemma BlankParse()
    ensures Parse(Command("a 0", 3)) == Some(Upload("a", 0))
  {
    var line := Command("a 0", 3);
    assert line[..|line|] == line;
    StripCommand("a 0", 3, |line|);
    BlankFields(Decimal(3));
    BlankSize();
    var rest := " " + ("a" + " 0 3");
    KeywordRead(rest);
    NextWordIs("a", " 0 3", 255);
    ParseWords(KEYWORD + rest, rest, "a", " 0 3", "0 3");
  }

  lemma BlankFields(d: string)
    requires d == "3"
    ensures Fields("a 0", d) == KEYWORD + (" " + ("a" + " 0 3"))
  {
    assert "a 0" + (" " + d) == "a" + " 0 3";
  }

  lemma BlankSize()
    ensures SkipSpaces(" 0 3") == "0 3" && ReadULong("0 3") == Some(0)
  {
    assert " 0 3" == " " + "0 3";
    SkipOneSpace("0 3");
    var s := "0 3";
    assert s[1..] == " 3";
    assert Digits(s[1..]) == "";
    assert Digits(s) == ["0"[0]];
    assert ['0'][..0] == "";
    assert Value(['0']) == 0;
  }
}
