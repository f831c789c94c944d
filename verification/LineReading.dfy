/** What read_line of HW4/TCP_Server/server.c makes of a stream that arrives in pieces. */
module LineReading {
  import opened CStrings
  import opened Counting
  import opened Net
  import opened UploadCommand

  /** read_line's returns: a line (its text is in `out`), 0 or -1. */
  datatype LineResult = Line(text: string) | Nothing | Error

  /** What read_line yields for a reader whose unread bytes start at `start` of the
      buffer, when `stream` is all there is to come (buffered or not), and what it
      leaves. A line is found only if its newline fits behind `start`; otherwise the
      full buffer counts as the end of the stream. */
  function ReadResult(start: nat, stream: string, outSize: nat): (r: (LineResult, string))
    requires start < BUFF_SIZE && outSize > 0
    ensures r.0 != Error
  {
    var p := IndexOf(stream, '\n');
    var n := if p < |stream| && start + p < BUFF_SIZE then p + 1 else Min(|stream|, BUFF_SIZE - start);
    (if n == 0 then Nothing else Line(stream[..Min(n, outSize - 1)]), stream[n..])
  }

  /** The length of the first line with its newline; of everything if there is none. */
  function FirstLength(s: string): (n: nat)
    requires s != ""
    ensures 0 < n <= |s|
  {
    var p := IndexOf(s, '\n');
    if p < |s| then p + 1 else |s|
  }

  /** The first line of the stream comes back whole if and only if it fits the buffer
      behind `start` and the line array with its terminator. */
  lemma LineWholeIff(start: nat, stream: string)
    requires start < BUFF_SIZE && stream != ""
    ensures var n := FirstLength(stream);
            ReadResult(start, stream, BUFF_SIZE) == (Line(stream[..n]), stream[n..])
            <==> start + n <= BUFF_SIZE && n < BUFF_SIZE
  {
    var n := FirstLength(stream);
    var r := ReadResult(start, stream, BUFF_SIZE);
    if start + n > BUFF_SIZE {
      assert |r.1| > |stream[n..]|;
    }
    assert r.0.Line? && |r.0.text| < BUFF_SIZE;
    assert |stream[..n]| == n;
  }

  /** A line of at most BUFF_SIZE / 2 bytes is found wherever a previous read_line
      left the reader, and no longer line is. */
  lemma LineFoundIff(stream: string)
    requires '\n' in stream
    ensures var n := IndexOf(stream, '\n') + 1;
            (forall start: nat :: start <= BUFF_SIZE / 2 ==>
               ReadResult(start, stream, BUFF_SIZE) == (Line(stream[..n]), stream[n..]))
            <==> n <= BUFF_SIZE / 2
  {
    forall start: nat | start <= BUFF_SIZE / 2 {
      LineWholeIff(start, stream);
    }
    LineWholeIff(BUFF_SIZE / 2, stream);
  }

  // ----- one call, receive by receive -----

  /** A reader and its socket: where the unread bytes start in the buffer, what they
      are, what is still to come, and in what pieces. */
  datatype View = View(start: nat, unread: string, incoming: string, cuts: seq<nat>)

  predicate ValidView(v: View) {
    v.start < BUFF_SIZE && v.start + |v.unread| <= BUFF_SIZE && (v.unread == "" ==> v.start == 0)
  }

  function Left(v: View): string {
    v.unread + v.incoming
  }

  function Fill(v: View): View {
    var n := Arriving(|v.incoming|, v.cuts, Max(0, BUFF_SIZE - v.start - |v.unread|));
    View(v.start, v.unread + v.incoming[..n], v.incoming[n..], if v.cuts == [] then [] else v.cuts[1..])
  }

  /** No line is in the buffer, but one may still come into it. */
  predicate Waits(v: View) {
    '\n' !in v.unread && v.start + |v.unread| < BUFF_SIZE && v.incoming != ""
  }

  function Await(v: View): (a: View)
    requires ValidView(v)
    ensures ValidView(a) && !Waits(a) && a.start == v.start && Left(a) == Left(v)
    decreases |v.incoming|
  {
    if Waits(v) then
      assert Left(Fill(v)) == Left(v);
      Await(Fill(v))
    else v
  }

  /** Where the unread bytes start after `count` bytes from `start` are consumed and
      `unread` stay in the buffer. */
  function NextStart(start: nat, count: nat, unread: string): nat {
    if unread == "" || start + count > BUFF_SIZE / 2 then 0 else start + count
  }

  /** Everything buffered as a line. */
  function AllOf(unread: string, outSize: nat): (r: LineResult)
    requires outSize > 0
    ensures r != Error
  {
    if unread == "" then Nothing else Line(unread[..Min(|unread|, outSize - 1)])
  }

  /** What is returned and left when waiting is over. */
  function Handed(v: View, outSize: nat): (LineResult, View)
    requires outSize > 0
  {
    var k := IndexOf(v.unread, '\n');
    if k < |v.unread| then
      var rest := v.unread[k + 1..];
      (Line(v.unread[..Min(k + 1, outSize - 1)]), View(NextStart(v.start, k + 1, rest), rest, v.incoming, v.cuts))
    else (AllOf(v.unread, outSize), View(0, "", v.incoming, v.cuts))
  }

  /** One call of read_line. */
  function ReadOnce(v: View, outSize: nat): (LineResult, View)
    requires ValidView(v) && outSize > 0
  {
    Handed(Await(v), outSize)
  }

  lemma FoundResult(start: nat, unread: string, rest: string, k: nat, outSize: nat)
    requires start + |unread| <= BUFF_SIZE && k < |unread| && outSize > 0
    requires unread[k] == '\n' && '\n' !in unread[..k]
    ensures ReadResult(start, unread + rest, outSize) ==
            (Line(unread[..Min(k + 1, outSize - 1)]), unread[k + 1..] + rest)
  {
    var s := unread + rest;
    assert s[k] == '\n' && forall j :: 0 <= j < k ==> s[j] == unread[..k][j];
    IndexOfUnique(s, '\n', k);
    assert s[k + 1..] == unread[k + 1..] + rest;
    assert s[..Min(k + 1, outSize - 1)] == unread[..Min(k + 1, outSize - 1)];
  }

  lemma EndResult(start: nat, unread: string, rest: string, outSize: nat)
    requires start + |unread| <= BUFF_SIZE && start < BUFF_SIZE && outSize > 0
    requires '\n' !in unread && (rest == "" || start + |unread| == BUFF_SIZE)
    ensures ReadResult(start, unread + rest, outSize).0 == AllOf(unread, outSize)
    ensures ReadResult(start, unread + rest, outSize).1 == rest
  {
    var s := unread + rest;
    assert forall j :: 0 <= j < |unread| ==> s[j] == unread[j];
    var p := IndexOf(s, '\n');
    assert p >= |unread|;
    var n := if p < |s| && start + p < BUFF_SIZE then p + 1 else Min(|s|, BUFF_SIZE - start);
    assert n == |unread|;
    assert s[n..] == rest;
    assert s[..Min(n, outSize - 1)] == unread[..Min(n, outSize - 1)];
  }

  /** Its result depends on the bytes and on `start`, not on the pieces. Where the next
      call starts does depend on them. */
  lemma ReadOnceResult(v: View, outSize: nat)
    requires ValidView(v) && outSize > 0
    ensures var (r, w) := ReadOnce(v, outSize);
            && ValidView(w) && (r, Left(w)) == ReadResult(v.start, Left(v), outSize)
            && w.start == NextStart(v.start, |Left(v)| - |Left(w)|, w.unread)
  {
    hide ReadResult;
    var a := Await(v);
    var k := IndexOf(a.unread, '\n');
    if k < |a.unread| {
      FoundResult(a.start, a.unread, a.incoming, k, outSize);
    } else {
      EndResult(a.start, a.unread, a.incoming, outSize);
      assert "" + a.incoming == a.incoming;
    }
  }
}
