/** A connected stream socket, and a file being written, as one program sees them. */
module Net {
  import opened Counting

  datatype Received = Data(bytes: string) | Eof | Failed

  /** How many of `n` waiting bytes a receive with some room gets when the network has
      `cuts[0]` of them ready; one at least, and one when nothing is said. */
  function Arriving(n: nat, cuts: seq<nat>, room: nat): nat {
    Min(Min(n, room), if cuts == [] then 1 else Max(1, cuts[0]))
  }

  class Socket {
    /** What the peer sends and this side has not received yet. */
    var incoming: string
    /** How much the network has ready at each receive to come. */
    var cuts: seq<nat>
    /** What this side has sent, one entry for each send. */
    var outgoing: seq<string>
    /** No receive or send on this socket ever fails. */
    const reliable: bool

    constructor (incoming: string, cuts: seq<nat>, reliable: bool)
      ensures this.incoming == incoming && this.cuts == cuts && this.outgoing == [] && this.reliable == reliable
    {
      this.incoming, this.cuts, this.outgoing, this.reliable := incoming, cuts, [], reliable;
    }

    /** recv: a non-empty chunk that fits, of the size `cuts` says; 0 when the peer has
        closed, and also when the caller has no room. */
    method Recv(room: nat) returns (r: Received)
      modifies this`incoming, this`cuts
      ensures r.Data? ==> 0 < |r.bytes| <= room && old(incoming) == r.bytes + incoming
      ensures r.Data? ==> |r.bytes| == Arriving(|old(incoming)|, old(cuts), room)
      ensures r.Data? ==> cuts == if old(cuts) == [] then [] else old(cuts)[1..]
      ensures !r.Data? ==> incoming == old(incoming) && cuts == old(cuts)
      ensures r.Eof? ==> room == 0 || incoming == ""
      ensures r.Failed? ==> !reliable
    {
      if * {
        if !reliable {
          return Failed;
        }
      }
      if room == 0 || incoming == "" {
        return Eof;
      }
      var n := Arriving(|incoming|, cuts, room);
      r := Data(incoming[..n]);
      incoming := incoming[n..];
      cuts := if cuts == [] then [] else cuts[1..];
    }

    /** A send whose result the caller does not look at: `data` counts as sent. */
    method Send(data: string)
      modifies this`outgoing
      ensures outgoing == old(outgoing) + [data]
    {
      outgoing := outgoing + [data];
    }

    /** send of a whole message, or nothing and false. */
    method TrySend(data: string) returns (ok: bool)
      modifies this`outgoing
      ensures outgoing == old(outgoing) + if ok then [data] else []
      ensures !ok ==> !reliable
    {
      ok := true;
      if * {
        ok := reliable;
      }
      if ok {
        outgoing := outgoing + [data];
      }
    }

    /** send that may take only part of the data, or fail with -1. */
    method SendSome(data: string) returns (n: int)
      requires data != ""
      modifies this`outgoing
      ensures n == -1 || 1 <= n <= |data|
      ensures outgoing == old(outgoing) + if n == -1 then [] else [data[..n]]
      ensures n == -1 ==> !reliable
    {
      if * {
        if !reliable {
          return -1;
        }
      }
      n :| 1 <= n <= |data|;
      outgoing := outgoing + [data[..n]];
    }
  }

  /** A file opened for writing. */
  class OutFile {
    var content: string
    /** Opening and writing never fail. */
    const reliable: bool

    constructor (reliable: bool)
      ensures content == "" && this.reliable == reliable
    {
      content, this.reliable := "", reliable;
    }

    /** fopen for writing: an earlier content is lost. */
    method Open() returns (ok: bool)
      modifies this
      ensures if ok then content == "" else content == old(content) && !reliable
    {
      ok := true;
      if * {
        ok := reliable;
      }
      if ok {
        content := "";
      }
    }

    /** fwrite: how many bytes were written. */
    method Write(bytes: string) returns (n: nat)
      modifies this
      ensures n <= |bytes| && content == old(content) + bytes[..n]
      ensures n < |bytes| ==> !reliable
    {
      n := |bytes|;
      if * {
        if !reliable {
          n :| 0 <= n <= |bytes|;
        }
      }
      content := content + bytes[..n];
    }
  }
}
