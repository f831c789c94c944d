/** The memory functions on fixed-size buffers. */
module Buffers {
  import opened CStrings

  /** Bytes are copied into the buffer at `at`. */
  method CopyIn(buf: array<char>, at: nat, bytes: string)
    requires at + |bytes| <= buf.Length
    modifies buf
    ensures buf[..] == old(buf[..at]) + bytes + old(buf[at + |bytes|..])
  {
    var i := 0;
    while i < |bytes|
      invariant 0 <= i <= |bytes|
      invariant forall k :: 0 <= k < buf.Length ==> buf[k] == if at <= k < at + i then bytes[k - at] else old(buf[k])
    {
      buf[at + i] := bytes[i];
      i := i + 1;
    }
  }

  /** `count` bytes from `from` on move to the front of the buffer. */
  method MoveDown(buf: array<char>, from: nat, count: nat)
    requires from + count <= buf.Length
    modifies buf
    ensures buf[..] == old(buf[from..from + count]) + old(buf[count..])
  {
    var i := 0;
    while i < count
      invariant 0 <= i <= count
      invariant buf[..i] == old(buf[from..from + i])
      invariant forall k :: i <= k < buf.Length ==> buf[k] == old(buf[k])
    {
      buf[i] := buf[from + i];
      i := i + 1;
    }
  }

  /** The length of the C string at `start`. */
  method Strlen(buf: array<char>, start: nat) returns (n: nat)
    requires start <= buf.Length && NUL in buf[start..]
    ensures n == |CString(buf[start..])|
  {
    n := 0;
    while buf[start + n] != NUL
      invariant 0 <= n <= IndexOf(buf[start..], NUL) < buf.Length - start
      decreases buf.Length - n
    {
      n := n + 1;
    }
  }
}
