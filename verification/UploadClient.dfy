/** HW4/TCP_Client/client.c: the name and the bytes it puts on the wire. */
module UploadClient {
  import opened Counting
  import opened Net
  import opened UploadCommand

  /** get_filename_from_path: what follows the last '/'. */
  function FileName(path: string): (name: string)
    ensures '/' !in name && |name| <= |path| && path[|path| - |name|..] == name
    ensures |name| < |path| ==> path[|path| - |name| - 1] == '/'
  {
    if path == "" || path[|path| - 1] == '/' then ""
    else
      var n := |path| - 1;
      assert path[..n] + [path[n]] == path;
      FileName(path[..n]) + [path[n]]
  }

  /** Everything sent, as one stream. */
  function Stream(sends: seq<string>): string {
    if sends == [] then "" else Stream(sends[..|sends| - 1]) + sends[|sends| - 1]
  }

  lemma StreamAppend(sends: seq<string>, data: string)
    ensures Stream(sends + [data]) == Stream(sends) + data
  {
    assert (sends + [data])[..|sends|] == sends;
  }

  /** upload_file: blocks of BUFF_SIZE are read from the file, and each is sent in as
      many pieces as send makes of it. The wire gets a prefix of the file, and all of
      it unless a send fails; the result is success exactly if it got all and that is
      as long as the command announced. */
  method UploadFile(sock: Socket, content: string, filesize: nat) returns (ok: bool)
    modifies sock`outgoing
    ensures exists n: nat :: SentUpTo(Stream(old(sock.outgoing)), content, n, Stream(sock.outgoing))
                             && (sock.reliable ==> n == |content|) && (ok <==> n == |content| == filesize)
  {
    var totalSent := 0;
    ghost var base := Stream(sock.outgoing);
    assert base + content[..0] == base;
    while totalSent < |content|
      invariant 0 <= totalSent <= |content|
      invariant Stream(sock.outgoing) == base + content[..totalSent]
    {
      var fileBuffer := content[totalSent..totalSent + Min(BUFF_SIZE, |content| - totalSent)];
      ghost var before := Stream(sock.outgoing);
      var sent := SendAll(sock, fileBuffer);
      if sent == -1 {
        ghost var n: nat :| SentUpTo(before, fileBuffer, n, Stream(sock.outgoing)) && n < |fileBuffer|;
        PieceOf(content, totalSent, |fileBuffer|, n);
        assert (base + content[..totalSent]) + fileBuffer[..n] == base + (content[..totalSent] + fileBuffer[..n]);
        assert SentUpTo(base, content, totalSent + n, Stream(sock.outgoing));
        return false;
      }
      PieceOf(content, totalSent, |fileBuffer|, |fileBuffer|);
      assert (base + content[..totalSent]) + fileBuffer == base + (content[..totalSent] + fileBuffer);
      totalSent := totalSent + |fileBuffer|;
    }
    assert SentUpTo(base, content, totalSent, Stream(sock.outgoing));
    ok := totalSent == filesize;
  }

  lemma PieceOf(content: string, from: nat, size: nat, n: nat)
    requires from + size <= |content| && n <= size
    ensures content[..from] + content[from..from + size][..n] == content[..from + n]
  {
  }

  /** `n` bytes of `data` came behind `base`. */
  ghost predicate SentUpTo(base: string, data: string, n: nat, stream: string) {
    n <= |data| && stream == base + data[..n]
  }

  /** The inner loop of upload_file: all of the block is sent, or less than that and -1. */
  method SendAll(sock: Socket, data: string) returns (sent: int)
    modifies sock`outgoing
    ensures sent == |data| || (sent == -1 && !sock.reliable)
    ensures sent != -1 ==> Stream(sock.outgoing) == Stream(old(sock.outgoing)) + data
    ensures sent == -1 ==>
              exists n: nat :: SentUpTo(Stream(old(sock.outgoing)), data, n, Stream(sock.outgoing)) && n < |data|
  {
    sent := 0;
    ghost var base := Stream(sock.outgoing);
    assert base + data[..0] == base;
    while sent < |data|
      invariant 0 <= sent <= |data|
      invariant Stream(sock.outgoing) == base + data[..sent]
    {
      ghost var sends := sock.outgoing;
      var r := sock.SendSome(data[sent..]);
      if r == -1 {
        assert sends + [] == sends;
        assert SentUpTo(base, data, sent, Stream(sock.outgoing));
        return -1;
      }
      StreamAppend(sends, data[sent..sent + r]);
      assert data[sent..][..r] == data[sent..sent + r];
      assert data[..sent] + data[sent..sent + r] == data[..sent + r];
      sent := sent + r;
    }
    assert data[..sent] == data;
  }
}
