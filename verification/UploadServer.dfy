/** HW4/TCP_Server/server.c on one connection: repeated read_line, and
    handle_file_upload. */
module UploadServer {
  import opened ConnBuf
  import opened CStrings
  import opened LineReading
  import opened Net
  import opened StreamLines
  import opened UploadCommand
  import opened UploadReplies
  import opened Wrappers

  // ----- all lines -----

  /** Repeated read_line calls on one reader. */
  method ReadLines(reader: Reader, sock: Socket) returns (lines: seq<string>)
    requires reader.Valid() && sock.reliable
    modifies reader, reader.buf, sock`incoming, sock`cuts
    ensures reader.Valid()
    ensures lines == ReadAll(old(reader.ViewOf(sock)))
  {
    hide ReadOnce, ReadResult, ReadAll, Left;
    lines := [];
    ghost var all := ReadAll(reader.ViewOf(sock));
    var more := true;
    while more
      invariant reader.Valid()
      invariant all == lines + if more then ReadAll(reader.ViewOf(sock)) else []
      decreases more, |Left(reader.ViewOf(sock))|
    {
      ghost var before := reader.ViewOf(sock);
      ReadAllStep(before);
      var r := reader.ReadLine(sock, BUFF_SIZE);
      if r.Line? {
        lines := lines + [r.text];
      } else {
        more := false;
      }
    }
  }

  // ----- one upload -----

  /** What a good command makes of the bytes buffered behind it and those still to come. */
  function Outcome(leftover: string, wire: string, u: Upload): Option<(string, string)> {
    if u.size - FromLeftover(|leftover|, u.size) <= |wire|
    then Some((u.name, Stored(leftover, wire, u.size).0)) else Option.None
  }

  /** Below 2^31 bytes it does not matter which bytes are buffered. */
  lemma SmallOutcome(leftover: string, wire: string, u: Upload)
    requires u.size < 0x8000_0000
    ensures var stream := leftover + wire;
            Outcome(leftover, wire, u) == if u.size <= |stream| then Some((u.name, stream[..u.size])) else Option.None
  {
    SmallFilesSafe(|leftover|, u.size);
    SafeTakesAll(|leftover|, u.size);
    if u.size <= |leftover + wire| {
      SafeConserves(leftover, wire, u.size);
    }
  }

  /** The replies to a good command. */
  function Verdict(success: bool): seq<string> {
    [CONFIRM_MSG, if success then SUCCESS_MSG else ERROR_UPLOAD_FAIL]
  }

  /** The part of handle_file_upload behind a good command. Without failures the stored
      file is the outcome for what is buffered and on the wire. Whatever fails, a file
      is stored only if it is that outcome, and the client is never told otherwise. */
  method TakeUpload(reader: Reader, sock: Socket, file: OutFile, u: Upload) returns (stored: Option<(string, string)>)
    requires reader.Valid() && u.size < ULONG_RANGE
    modifies reader`start, reader`end, sock, file
    ensures stored == Outcome(old(reader.Unread()), old(sock.incoming), u) ||
            (stored == Option.None && !(sock.reliable && file.reliable))
    ensures old(sock.outgoing) <= sock.outgoing <= old(sock.outgoing) + Verdict(stored.Some?)
    ensures sock.reliable ==> sock.outgoing == old(sock.outgoing) + Verdict(stored.Some?)
  {
    stored := Option.None;
    var confirmed := sock.TrySend(CONFIRM_MSG);
    if !confirmed {
      return;
    }
    var ok := reader.ReceiveFile(sock, file, u.size);
    if ok {
      stored := Some((u.name, file.content));
    }
    var told := sock.TrySend(if ok then SUCCESS_MSG else ERROR_UPLOAD_FAIL);
  }

  /** The command in what read_line returns, which is read up to a NUL. */
  function CommandOf(line: LineResult): Option<Upload> {
    if line.Line? then Parse(CString(line.text)) else None
  }

  /** All the replies to a line and the command in it. */
  function Replies(line: LineResult, success: bool): seq<string> {
    if CommandOf(line) != None then Verdict(success)
    else if line.Line? then [ERROR_INVALID_CMD] else []
  }

  /** handle_file_upload. The first line of the stream is the command, and the outcome
      is that of what has arrived behind it by then and what is still to come. For files
      below 2^31 bytes it depends on the stream alone, not on its chunks: without
      failures the upload succeeds, storing exactly the next `size` bytes under the name
      in the command, iff the stream holds that many. Whatever fails, nothing else is
      ever stored, and the client is not told of a success that was none. */
  method HandleFileUpload(sock: Socket, file: OutFile) returns (stored: Option<(string, string)>)
    modifies sock, file
    ensures var (line, v) := ReadOnce(View(0, "", old(sock.incoming), old(sock.cuts)), BUFF_SIZE);
            var u := CommandOf(line);
            && (stored.Some? ==> u.Some? && stored == Outcome(v.unread, v.incoming, u.value))
            && (stored.Some? ==> KeywordFirst(CString(line.text)))
            && old(sock.outgoing) <= sock.outgoing <= old(sock.outgoing) + Replies(line, stored.Some?)
            && (sock.reliable ==> sock.outgoing == old(sock.outgoing) + Replies(line, stored.Some?))
            && (u.Some? && sock.reliable && file.reliable ==> stored == Outcome(v.unread, v.incoming, u.value))
    ensures var (line, rest) := ReadResult(0, old(sock.incoming), BUFF_SIZE);
            var u := CommandOf(line);
            && (u.Some? && u.value.size < 0x8000_0000 ==>
                  var fits := u.value.size <= |rest|;
                  && (stored.Some? ==> fits && stored == Some((u.value.name, rest[..u.value.size])))
                  && (sock.reliable && file.reliable ==> (stored.Some? <==> fits)))
  {
    hide Parse, CString, ReadResult, Outcome, ReadOnce, KeywordFirst;
    ReadOnceResult(View(0, "", sock.incoming, sock.cuts), BUFF_SIZE);
    assert Left(View(0, "", sock.incoming, sock.cuts)) == sock.incoming;
    var reader := new Reader();
    assert reader.Unread() + sock.incoming == sock.incoming;
    var line := reader.ReadLine(sock, BUFF_SIZE);
    if !line.Line? {
      return Option.None;
    }
    var u := Parse(CString(line.text));
    KeywordNeeded(CString(line.text));
    if u == None {
      var told := sock.TrySend(ERROR_INVALID_CMD);
      return Option.None;
    }
    if u.value.size < 0x8000_0000 {
      SmallOutcome(reader.Unread(), sock.incoming, u.value);
    }
    stored := TakeUpload(reader, sock, file, u.value);
  }
}
