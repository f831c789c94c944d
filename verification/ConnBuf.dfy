/** The buffered reader of HW4/TCP_Server/server.c: ConnBuf with fill_buf, read_line
    and receive_file_with_buf. */
module ConnBuf {
  import opened Buffers
  import opened CStrings
  import opened Counting
  import opened LineReading
  import opened Net
  import opened Numerals
  import opened UploadCommand

  /** How many leftover bytes receive_file_with_buf writes to the file. */
  function FromLeftover(avail: nat, filesize: nat): (n: nat)
    ensures n <= avail && n <= filesize
  {
    var w := if avail > ToInt(filesize) then ToInt(filesize) else avail;
    if w > 0 then w else 0
  }

  /** The leftover is handled right: no more of it is kept than the file leaves. The
      (int) cast may make the size too small or negative. */
  predicate CastSafe(avail: nat, filesize: nat) {
    avail == 0 || ToInt(filesize) >= Min(avail, filesize)
  }

  lemma SmallFilesSafe(avail: nat, filesize: nat)
    requires avail == 0 || filesize < 0x8000_0000
    ensures CastSafe(avail, filesize)
  {
  }

  lemma SafeTakesAll(avail: nat, filesize: nat)
    ensures CastSafe(avail, filesize) <==> FromLeftover(avail, filesize) == Min(avail, filesize)
  {
  }

  /** What receive_file_with_buf stores, leaves in the buffer and leaves on the wire
      when it succeeds. */
  function Stored(leftover: string, wire: string, filesize: nat): (string, string, string)
    requires filesize - FromLeftover(|leftover|, filesize) <= |wire|
  {
    var n := FromLeftover(|leftover|, filesize);
    (leftover[..n] + wire[..filesize - n], leftover[n..], wire[filesize - n..])
  }

  /** The file is the first `filesize` bytes of leftover and wire. */
  ghost predicate Conserves(leftover: string, wire: string, filesize: nat)
    requires filesize - FromLeftover(|leftover|, filesize) <= |wire|
  {
    var r := Stored(leftover, wire, filesize);
    r.0 == (leftover + wire)[..filesize] && r.1 + r.2 == (leftover + wire)[filesize..]
  }

  lemma SafeConserves(leftover: string, wire: string, filesize: nat)
    requires CastSafe(|leftover|, filesize) && filesize <= |leftover| + |wire|
    ensures filesize - FromLeftover(|leftover|, filesize) <= |wire| && Conserves(leftover, wire, filesize)
  {
    SafeTakesAll(|leftover|, filesize);
  }

  /** Bytes are conserved for all contents exactly when the cast is safe, which the
      caller can tell from the two lengths. */
  lemma ConservedIffCastSafe(avail: nat, more: nat, filesize: nat)
    requires filesize - FromLeftover(avail, filesize) <= more
    ensures CastSafe(avail, filesize) <==>
            forall leftover: string, wire: string :: |leftover| == avail && |wire| == more ==>
              Conserves(leftover, wire, filesize)
  {
    if CastSafe(avail, filesize) {
      forall leftover: string, wire: string | |leftover| == avail && |wire| == more
        ensures Conserves(leftover, wire, filesize)
      {
        SafeConserves(leftover, wire, filesize);
      }
    } else {
      var leftover, wire := seq(avail, _ => 'a'), seq(more, _ => 'b');
      var n := FromLeftover(avail, filesize);
      SafeTakesAll(avail, filesize);
      var r := Stored(leftover, wire, filesize);
      assert n < avail && n < filesize;
      assert r.0[n] == 'b' && (leftover + wire)[..filesize][n] == 'a';
      assert !Conserves(leftover, wire, filesize);
    }
  }

  /** One buffered byte and a size of 2^31: none of the leftover is taken, and what
      should be its first byte comes from the wire. */
  lemma LargeSizeLosesLeftover(leftover: string, wire: string)
    requires leftover == "a" && |wire| == 0x8000_0000 && wire[0] == 'b'
    ensures !CastSafe(|leftover|, 0x8000_0000) && FromLeftover(|leftover|, 0x8000_0000) == 0
    ensures Stored(leftover, wire, 0x8000_0000) == (wire, "a", "") && !Conserves(leftover, wire, 0x8000_0000)
  {
    var r := Stored(leftover, wire, 0x8000_0000);
    assert leftover[..0] + wire[..0x8000_0000] == wire;
    assert leftover[0..] == leftover && wire[0x8000_0000..] == "";
    assert r.0[0] == 'b' && (leftover + wire)[..0x8000_0000][0] == 'a';
  }

  class Reader {
    const buf: array<char>
    var start: int
    var end: int

    ghost predicate Valid()
      reads this
    {
      && buf.Length == BUFF_SIZE && 0 <= start <= end <= BUFF_SIZE
      && (start == end ==> start == 0)
    }

    /** The bytes received and not yet consumed. */
    ghost function Unread(): string
      requires Valid()
      reads this, buf
    {
      buf[start..end]
    }

    /** The reader with the socket it reads from. */
    ghost function ViewOf(sock: Socket): (v: View)
      requires Valid()
      reads this, buf, sock
      ensures ValidView(v)
    {
      View(start, Unread(), sock.incoming, sock.cuts)
    }

    constructor ()
      ensures Valid() && Unread() == "" && start == 0 && fresh(buf)
    {
      buf := new char[BUFF_SIZE](_ => NUL);
      start, end := 0, 0;
    }

    /** fill_buf: a full buffer reads as the end of the stream. */
    method FillBuf(sock: Socket) returns (r: Received)
      requires Valid()
      modifies this`end, buf, sock`incoming, sock`cuts
      ensures Valid()
      ensures r.Data? ==> ViewOf(sock) == Fill(old(ViewOf(sock))) && |sock.incoming| < |old(sock.incoming)|
      ensures r.Data? ==> old(end) < BUFF_SIZE
      ensures !r.Data? ==> end == old(end) && ViewOf(sock) == old(ViewOf(sock))
      ensures r.Eof? ==> end == BUFF_SIZE || sock.incoming == ""
      ensures r.Failed? ==> !sock.reliable
    {
      if end >= BUFF_SIZE {
        return Eof;
      }
      ghost var unread := Unread();
      r := sock.Recv(BUFF_SIZE - end);
      if r.Data? {
        CopyIn(buf, end, r.bytes);
        assert buf[start..end + |r.bytes|] == buf[..][start..end + |r.bytes|] == unread + r.bytes;
        end := end + |r.bytes|;
      }
    }

    /** The end of a line is passed; what is left moves to the front of the buffer
        when it starts in the second half. */
    method Consume(count: nat)
      requires Valid() && 0 < count <= end - start
      modifies this`start, this`end, buf
      ensures Valid() && start == NextStart(old(start), count, Unread())
      ensures Unread() == old(Unread())[count..]
    {
      ghost var rest := buf[start + count..end];
      start := start + count;
      if start == end {
        start, end := 0, 0;
      } else if start > 0 && start > BUFF_SIZE / 2 {
        MoveDown(buf, start, end - start);
        assert buf[..end - start] == buf[..][..end - start] == rest;
        end := end - start;
        start := 0;
      }
    }

    /** The scan of read_line. */
    method FindNewline() returns (k: int)
      requires Valid()
      ensures k == -1 ==> '\n' !in Unread()
      ensures k != -1 ==> 0 <= k < |Unread()| && IndexOf(Unread(), '\n') == k
    {
      var i := start;
      while i < end
        invariant start <= i <= end
        invariant forall k :: start <= k < i ==> buf[k] != '\n'
      {
        if buf[i] == '\n' {
          IndexOfUnique(Unread(), '\n', i - start);
          return i - start;
        }
        i := i + 1;
      }
      return -1;
    }

    /** The reader gives up what is buffered, without a newline. */
    method TakeAll(outSize: nat) returns (r: LineResult)
      requires Valid() && outSize > 0
      modifies this`start, this`end
      ensures Valid() && start == 0 && Unread() == ""
      ensures r == AllOf(old(Unread()), outSize)
    {
      if end - start == 0 {
        return Nothing;
      }
      var left := end - start;
      var copyLen := Min(left, outSize - 1);
      r := Line(buf[start..start + copyLen]);
      assert buf[start..start + copyLen] == Unread()[..copyLen];
      start, end := 0, 0;
    }

    /** The reader gives up a line that ends at offset k of its unread bytes. */
    method TakeLine(k: nat, outSize: nat) returns (r: LineResult)
      requires Valid() && k < end - start && outSize > 0
      modifies this`start, this`end, buf
      ensures Valid() && start == NextStart(old(start), k + 1, Unread())
      ensures r == Line(old(Unread())[..Min(k + 1, outSize - 1)])
      ensures Unread() == old(Unread())[k + 1..]
    {
      var copyLen := Min(k + 1, outSize - 1);
      r := Line(buf[start..start + copyLen]);
      assert buf[start..start + copyLen] == Unread()[..copyLen];
      Consume(k + 1);
    }

    /** Reads until the newline is in the buffer (its offset), or nothing more comes (-1). */
    method AwaitNewline(sock: Socket) returns (k: int, got: Received)
      requires Valid()
      modifies this`end, buf, sock`incoming, sock`cuts
      ensures Valid()
      ensures k != -1 ==> 0 <= k < |Unread()| && IndexOf(Unread(), '\n') == k
      ensures k == -1 ==> '\n' !in Unread() && !got.Data?
      ensures if k == -1 && got.Failed? then !sock.reliable && Left(ViewOf(sock)) == old(Left(ViewOf(sock)))
              else ViewOf(sock) == Await(old(ViewOf(sock)))
    {
      hide Fill, IndexOf;
      got := Data("");
      k := FindNewline();
      while k == -1 && got.Data?
        invariant Valid()
        invariant Await(ViewOf(sock)) == Await(old(ViewOf(sock)))
        invariant if k == -1 then '\n' !in Unread() else 0 <= k < |Unread()| && IndexOf(Unread(), '\n') == k
        invariant got.Eof? ==> k == -1 && (end == BUFF_SIZE || sock.incoming == "")
        invariant got.Failed? ==> k == -1 && !sock.reliable
        decreases |sock.incoming|, if got.Data? then 1 else 0
      {
        ghost var before := ViewOf(sock);
        got := FillBuf(sock);
        if got.Data? {
          assert Waits(before);
          k := FindNewline();
        }
      }
    }

    /** read_line. The result depends on the bytes that come and on `start`, not on how
        the bytes are cut into chunks. */
    method ReadLine(sock: Socket, outSize: nat) returns (r: LineResult)
      requires Valid() && outSize > 0
      modifies this`start, this`end, buf, sock`incoming, sock`cuts
      ensures Valid()
      ensures !r.Error? ==> (r, ViewOf(sock)) == ReadOnce(old(ViewOf(sock)), outSize)
      ensures !r.Error? ==>
                (r, Unread() + sock.incoming) == ReadResult(old(start), old(Unread() + sock.incoming), outSize)
      ensures r.Error? ==> !sock.reliable && Unread() + sock.incoming == old(Unread() + sock.incoming)
    {
      hide Await, NextStart, ReadResult;
      ReadOnceResult(ViewOf(sock), outSize);
      var found, got := AwaitNewline(sock);
      if found != -1 {
        r := TakeLine(found, outSize);
      } else if got.Eof? {
        r := TakeAll(outSize);
      } else {
        r := Error;
      }
    }

    /** Bytes already in the buffer go to the file first; how many, the cast to int
        decides. False when they cannot be written. */
    method DrainLeftover(file: OutFile, filesize: nat) returns (ok: bool)
      requires Valid()
      modifies this`start, this`end, file
      ensures Valid()
      ensures var n := FromLeftover(|old(Unread())|, filesize);
              ok ==> file.content == old(file.content) + old(Unread())[..n] && Unread() == old(Unread())[n..]
      ensures !ok ==> !file.reliable && Unread() == old(Unread())
    {
      ok := true;
      assert file.content + Unread()[..0] == file.content;
      if end > start {
        var avail := end - start;
        var toWrite := if avail > ToInt(filesize) then ToInt(filesize) else avail;
        if toWrite > 0 {
          var leftover := buf[start..start + toWrite];
          var n := file.Write(leftover);
          if n != toWrite {
            return false;
          }
          assert leftover[..n] == leftover;
          start := start + toWrite;
          if start == end {
            start, end := 0, 0;
          }
        }
      }
    }

    /** receive_file_with_buf: exact on success, and without failures of the socket
        and the file successful exactly if the bytes that remain come. */
    method ReceiveFile(sock: Socket, file: OutFile, filesize: nat) returns (ok: bool)
      requires Valid() && filesize < ULONG_RANGE
      modifies this`start, this`end, sock`incoming, sock`cuts, file
      ensures Valid()
      ensures var leftover, wire := old(Unread()), old(sock.incoming);
              var n := FromLeftover(|leftover|, filesize);
              && (Unread() == leftover[n..] || (!ok && !file.reliable && Unread() == leftover))
              && (ok ==> filesize - n <= |wire| &&
                         (file.content, Unread(), sock.incoming) == Stored(leftover, wire, filesize))
              && (sock.reliable && file.reliable ==>
                    (ok <==> filesize - n <= |wire|) && (!ok ==> sock.incoming == ""))
    {
      hide FromLeftover;
      ok := file.Open();
      if !ok {
        return;
      }
      ghost var drained := Unread()[..FromLeftover(|Unread()|, filesize)];
      ok := DrainLeftover(file, filesize);
      if ok {
        assert file.content == "" + drained == drained;
        ok := ReceiveRest(sock, file, filesize, |file.content|);
      }
    }
  }

  /** The receive loop of receive_file_with_buf, straight from the socket to the file. */
  method ReceiveRest(sock: Socket, file: OutFile, filesize: nat, received: nat) returns (ok: bool)
    requires received <= filesize
    modifies sock`incoming, sock`cuts, file
    ensures var wire, more := old(sock.incoming), filesize - received;
            && (ok ==> more <= |wire| && sock.incoming == wire[more..])
            && (ok ==> file.content == old(file.content) + wire[..more])
            && (sock.reliable && file.reliable ==> (ok <==> more <= |wire|) && (!ok ==> sock.incoming == ""))
  {
    ghost var kept, wire := file.content, sock.incoming;
    var totalReceived := received;
    assert kept + wire[..0] == kept;
    while totalReceived < filesize
      invariant received <= totalReceived <= filesize && totalReceived - received <= |wire|
      invariant file.content == kept + wire[..totalReceived - received]
      invariant sock.incoming == wire[totalReceived - received..]
    {
      var remain := filesize - totalReceived;
      var toRecv := if remain > BUFF_SIZE then BUFF_SIZE else remain;
      var r := sock.Recv(toRecv);
      if !r.Data? {
        return false;
      }
      var written := file.Write(r.bytes);
      if written != |r.bytes| {
        return false;
      }
      assert r.bytes[..written] == r.bytes;
      totalReceived := totalReceived + |r.bytes|;
    }
    ok := true;
  }
}
