/** HW4's read_line called again and again: for which streams, under every way they may
    be cut on the network, it gives back exactly their lines. */
module StreamLines {
  import opened CStrings
  import opened Counting
  import opened LineReading
  import opened Net
  import opened UploadCommand

  // ----- the lines of a stream -----

  function SplitLines(s: string): seq<string>
    decreases |s|
  {
    if s == "" then [] else [s[..FirstLength(s)]] + SplitLines(s[FirstLength(s)..])
  }

  function Join(lines: seq<string>): string {
    if lines == [] then "" else lines[0] + Join(lines[1..])
  }

  /** A line with its newline at the end, or the unfinished last line. */
  predicate IsLine(line: string, last: bool) {
    && line != "" && '\n' !in line[..|line| - 1]
    && (line[|line| - 1] == '\n' || last)
  }

  /** SplitLines cuts the stream into its lines and loses nothing. */
  lemma {:induction false} SplitLinesJoin(s: string)
    ensures Join(SplitLines(s)) == s
    decreases |s|
  {
    if s != "" {
      var n := FirstLength(s);
      SplitLinesJoin(s[n..]);
      assert s == s[..n] + s[n..];
      assert SplitLines(s)[1..] == SplitLines(s[n..]);
    }
  }

  lemma {:induction false} SplitLinesAreLines(s: string)
    ensures forall k :: 0 <= k < |SplitLines(s)| ==> IsLine(SplitLines(s)[k], k == |SplitLines(s)| - 1)
    decreases |s|
  {
    if s != "" {
      var n := FirstLength(s);
      SplitLinesAreLines(s[n..]);
      FirstIsLine(s);
    }
  }

  lemma FirstIsLine(s: string)
    requires s != ""
    ensures var n := FirstLength(s); IsLine(s[..n], n == |s|)
  {
    var n := FirstLength(s);
    assert s[..n][..n - 1] == s[..n - 1];
  }

  // ----- reading them all -----

  /** What repeated read_line calls give until there is no line any more. */
  function ReadAll(v: View): (lines: seq<string>)
    requires ValidView(v)
    decreases |Left(v)|
  {
    var (r, w) := ReadOnce(v, BUFF_SIZE);
    ReadOnceResult(v, BUFF_SIZE);
    if r.Line? then [r.text] + ReadAll(w) else []
  }

  lemma ReadAllStep(v: View)
    requires ValidView(v)
    ensures var (r, w) := ReadOnce(v, BUFF_SIZE);
            && ValidView(w) && r != Error
            && ReadAll(v) == (if r.Line? then [r.text] + ReadAll(w) else [])
            && (r.Line? ==> |Left(w)| < |Left(v)|)
  {
    ReadOnceResult(v, BUFF_SIZE);
  }

  /** Whatever the chunks: every line comes back whole when the next read_line starts
      at `start`. The reader goes on at 0 if nothing is left in its buffer, else behind
      the line unless that is in the second half. */
  predicate WholeFrom(start: nat, lines: seq<string>)
    decreases |lines|
  {
    lines == [] ||
      var next := start + |lines[0]|;
      && next <= BUFF_SIZE && |lines[0]| < BUFF_SIZE
      && WholeFrom(0, lines[1..])
      && (next <= BUFF_SIZE / 2 ==> WholeFrom(next, lines[1..]))
  }

  /** Total length of the lines from `i` to `k`. */
  function Length(lines: seq<string>, i: nat, k: nat): nat
    requires i <= k <= |lines|
    decreases k - i
  {
    if i == k then 0 else |lines[i]| + Length(lines, i + 1, k)
  }

  /** Lines that fit into the first half of the buffer together, and the next one with
      them into the buffer. */
  predicate FitBehind(lines: seq<string>, i: nat, k: nat)
    requires i <= k < |lines|
  {
    Length(lines, i, k) <= BUFF_SIZE / 2 ==>
      Length(lines, i, k) + |lines[k]| <= BUFF_SIZE && |lines[k]| < BUFF_SIZE
  }

  lemma {:induction false} LengthOfRest(lines: seq<string>, i: nat, k: nat)
    requires 1 <= i <= k <= |lines|
    ensures Length(lines, i, k) == Length(lines[1..], i - 1, k - 1)
    decreases k - i
  {
    if i < k {
      LengthOfRest(lines, i + 1, k);
    }
  }

  /** The line at `k` fits when the lines before it were read from `start` on without
      a return to 0. */
  predicate FitFrom(start: nat, lines: seq<string>, k: nat)
    requires k < |lines|
  {
    var before := start + Length(lines, 0, k);
    (before <= BUFF_SIZE / 2 || k == 0) ==> before + |lines[k]| <= BUFF_SIZE && |lines[k]| < BUFF_SIZE
  }

  predicate AllFitFrom(start: nat, lines: seq<string>) {
    forall k :: 0 <= k < |lines| ==> FitFrom(start, lines, k)
  }

  predicate AllFitBehind(lines: seq<string>, from: nat) {
    forall i, k :: from <= i <= k < |lines| ==> FitBehind(lines, i, k)
  }

  lemma FitOfRest(start: nat, lines: seq<string>, i: nat, k: nat)
    requires 1 <= i <= k < |lines|
    ensures FitBehind(lines, i, k) <==> FitBehind(lines[1..], i - 1, k - 1)
    ensures FitFrom(0, lines[1..], k - 1) <==> FitBehind(lines, 1, k)
    ensures start + |lines[0]| <= BUFF_SIZE / 2 ==>
              (FitFrom(start + |lines[0]|, lines[1..], k - 1) <==> FitFrom(start, lines, k))
    ensures start + |lines[0]| > BUFF_SIZE / 2 ==> FitFrom(start, lines, k)
  {
    LengthOfRest(lines, i, k);
    LengthOfRest(lines, 1, k);
  }

  lemma AllOfRest(start: nat, lines: seq<string>)
    requires lines != []
    ensures var rest, next := lines[1..], start + |lines[0]|;
            && (AllFitBehind(lines, 1) <==> AllFitFrom(0, rest) && AllFitBehind(rest, 1))
            && (AllFitFrom(start, lines) <==>
                  FitFrom(start, lines, 0) && (next <= BUFF_SIZE / 2 ==> AllFitFrom(next, rest)))
  {
    hide FitBehind, FitFrom;
    var rest, next := lines[1..], start + |lines[0]|;
    forall i, k | 1 <= i <= k < |lines|
      ensures FitBehind(lines, i, k) <==> FitBehind(rest, i - 1, k - 1)
    {
      FitOfRest(start, lines, i, k);
    }
    forall k | 1 <= k < |lines|
      ensures FitFrom(0, rest, k - 1) <==> FitBehind(lines, 1, k)
      ensures next <= BUFF_SIZE / 2 ==> (FitFrom(next, rest, k - 1) <==> FitFrom(start, lines, k))
      ensures next > BUFF_SIZE / 2 ==> FitFrom(start, lines, k)
    {
      FitOfRest(start, lines, 1, k);
    }
    FitShift(lines, rest);
    if next <= BUFF_SIZE / 2 && AllFitFrom(start, lines) {
      forall k | 0 <= k < |rest|
        ensures FitFrom(next, rest, k)
      {
        FitOfRest(start, lines, 1, k + 1);
        assert FitFrom(start, lines, k + 1);
      }
    }
  }

  lemma FitShift(lines: seq<string>, rest: seq<string>)
    requires |lines| == |rest| + 1
    requires forall i, k :: 1 <= i <= k < |lines| ==> (FitBehind(lines, i, k) <==> FitBehind(rest, i - 1, k - 1))
    requires forall k :: 1 <= k < |lines| ==> (FitFrom(0, rest, k - 1) <==> FitBehind(lines, 1, k))
    ensures AllFitBehind(lines, 1) <==> AllFitFrom(0, rest) && AllFitBehind(rest, 1)
  {
    hide FitBehind, FitFrom;
    if AllFitBehind(lines, 1) {
      forall k | 0 <= k < |rest|
        ensures FitFrom(0, rest, k)
      {
        assert FitBehind(lines, 1, k + 1);
        assert FitFrom(0, rest, (k + 1) - 1);
      }
      forall i, k | 1 <= i <= k < |rest|
        ensures FitBehind(rest, i, k)
      {
        assert FitBehind(lines, i + 1, k + 1);
        assert FitBehind(rest, (i + 1) - 1, (k + 1) - 1);
      }
    }
  }

  lemma {:induction false} WholeFromIff(start: nat, lines: seq<string>)
    ensures WholeFrom(start, lines) <==> AllFitFrom(start, lines) && AllFitBehind(lines, 1)
    decreases |lines|
  {
    if lines != [] {
      hide AllFitFrom, AllFitBehind;
      AllOfRest(start, lines);
      WholeFromIff(0, lines[1..]);
      WholeFromIff(start + |lines[0]|, lines[1..]);
      assert FitFrom(start, lines, 0) <==> start + |lines[0]| <= BUFF_SIZE && |lines[0]| < BUFF_SIZE;
    }
  }

  /** A fresh reader gets every line whole, for every chunking, if and only if no line
      is too long behind any lines before it that fit into half the buffer together. */
  lemma WholeFreshIff(lines: seq<string>)
    ensures WholeFrom(0, lines) <==> forall i, k :: 0 <= i <= k < |lines| ==> FitBehind(lines, i, k)
  {
    WholeFromIff(0, lines);
    assert forall k :: 0 <= k < |lines| ==> (FitFrom(0, lines, k) <==> FitBehind(lines, 0, k));
  }

  /** Lines of at most half the buffer always do. */
  lemma {:induction false} ShortLinesWhole(start: nat, lines: seq<string>)
    requires start <= BUFF_SIZE / 2 && forall l :: l in lines ==> |l| <= BUFF_SIZE / 2
    ensures WholeFrom(start, lines)
    decreases |lines|
  {
    if lines != [] {
      assert lines[0] in lines;
      ShortLinesWhole(0, lines[1..]);
      if start + |lines[0]| <= BUFF_SIZE / 2 {
        ShortLinesWhole(start + |lines[0]|, lines[1..]);
      }
    }
  }

  /** One line that fits is read whole. */
  lemma LineRead(start: nat, s: string)
    requires start < BUFF_SIZE && s != "" && WholeFrom(start, SplitLines(s))
    ensures var n := FirstLength(s);
            && start + n <= BUFF_SIZE
            && ReadResult(start, s, BUFF_SIZE) == (Line(s[..n]), s[n..])
            && SplitLines(s) == [s[..n]] + SplitLines(s[n..])
            && WholeFrom(0, SplitLines(s[n..]))
            && (start + n <= BUFF_SIZE / 2 ==> WholeFrom(start + n, SplitLines(s[n..])))
  {
    var n := FirstLength(s);
    LineWholeIff(start, s);
    assert SplitLines(s)[0] == s[..n];
    assert SplitLines(s)[1..] == SplitLines(s[n..]);
  }

  lemma NextWhole(start: nat, n: nat, unread: string, lines: seq<string>)
    requires WholeFrom(0, lines) && (start + n <= BUFF_SIZE / 2 ==> WholeFrom(start + n, lines))
    ensures NextStart(start, n, unread) >= 0 && WholeFrom(NextStart(start, n, unread), lines)
  {
  }

  /** Such a stream is read line by line, however it is cut. */
  lemma {:induction false} WholeIsRead(v: View)
    requires ValidView(v) && WholeFrom(v.start, SplitLines(Left(v)))
    ensures ReadAll(v) == SplitLines(Left(v))
    decreases |Left(v)|
  {
    hide ReadOnce, ReadAll, WholeFrom, SplitLines, ReadResult, FirstLength, NextStart;
    ReadAllStep(v);
    ReadOnceResult(v, BUFF_SIZE);
    var (r, w) := ReadOnce(v, BUFF_SIZE);
    var s := Left(v);
    if s == "" {
      NothingRead(v.start);
    } else {
      LineRead(v.start, s);
      NextWhole(v.start, FirstLength(s), w.unread, SplitLines(Left(w)));
      WholeIsRead(w);
    }
  }

  lemma NothingRead(start: nat)
    requires start < BUFF_SIZE
    ensures ReadResult(start, "", BUFF_SIZE) == (Nothing, "") && SplitLines("") == []
  {
  }

  // ----- and any other stream is not, for some cut -----

  /** A line that does not fit comes back shorter. */
  lemma LineCut(v: View)
    requires ValidView(v) && Left(v) != ""
    requires var n := FirstLength(Left(v)); v.start + n > BUFF_SIZE || n >= BUFF_SIZE
    ensures ReadAll(v) != [] && |ReadAll(v)[0]| < FirstLength(Left(v))
  {
    hide ReadOnce, NextStart;
    ReadAllStep(v);
    ReadOnceResult(v, BUFF_SIZE);
  }

  lemma LineAtFront(s: string)
    requires s != ""
    ensures var n := FirstLength(s);
            && SplitLines(s) == [s[..n]] + SplitLines(s[n..]) && |SplitLines(s)[0]| == n
            && (n < |s| ==> IndexOf(s, '\n') == n - 1)
  {
  }

  /** A line in the buffer is handed out without a receive. */
  lemma ReadBuffered(v: View, n: nat)
    requires ValidView(v) && 0 < n <= |v.unread| && IndexOf(v.unread, '\n') == n - 1 && n < BUFF_SIZE
    ensures ReadOnce(v, BUFF_SIZE) ==
            (Line(v.unread[..n]), View(NextStart(v.start, n, v.unread[n..]), v.unread[n..], v.incoming, v.cuts))
  {
    assert v.unread[n - 1] == '\n';
  }

  lemma IndexInPrefix(s: string, p: nat, n: nat)
    requires IndexOf(s, '\n') == p < n <= |s|
    ensures IndexOf(s[..n], '\n') == p
  {
    IndexOfUnique(s[..n], '\n', p);
  }

  /** The lines up to `k`, of which the reader has all but the rest of line `k`. */
  ghost predicate Ahead(v: View, lines: seq<string>, k: nat) {
    && ValidView(v) && k < |lines| && lines == SplitLines(Left(v))
    && |v.unread| == Length(lines, 0, k) + 1
    && var before := v.start + Length(lines, 0, k);
       before <= BUFF_SIZE / 2 && (before + |lines[k]| > BUFF_SIZE || |lines[k]| >= BUFF_SIZE)
  }

  lemma AheadStep(v: View, lines: seq<string>, k: nat)
    requires Ahead(v, lines, k) && k > 0
    ensures Ahead(ReadOnce(v, BUFF_SIZE).1, lines[1..], k - 1) && ReadOnce(v, BUFF_SIZE).0.Line?
  {
    LineAtFront(Left(v));
    hide ReadOnce, SplitLines, FirstLength, IndexOf;
    LengthOfRest(lines, 1, k);
    assert |lines[0]| == FirstLength(Left(v));
    ReadAhead(v);
  }

  lemma {:induction false} CutAhead(v: View, lines: seq<string>, k: nat)
    requires Ahead(v, lines, k)
    ensures ReadAll(v) != lines
    decreases k
  {
    if k == 0 {
      CutAtFront(v, lines);
    } else {
      AheadStep(v, lines, k);
      ReadAllStep(v);
      hide Ahead, ReadOnce, ReadAll;
      var (r, w) := ReadOnce(v, BUFF_SIZE);
      CutAhead(w, lines[1..], k - 1);
      SameTail(r.text, ReadAll(w), lines);
    }
  }

  lemma CutAtFront(v: View, lines: seq<string>)
    requires Ahead(v, lines, 0)
    ensures ReadAll(v) != lines
  {
    LineAtFront(Left(v));
    hide ReadAll, SplitLines, FirstLength;
    LineCut(v);
  }

  lemma SameTail(line: string, rest: seq<string>, lines: seq<string>)
    requires lines != [] && rest != lines[1..]
    ensures [line] + rest != lines
  {
    assert ([line] + rest)[1..] == rest;
  }

  /** The reader has the first line and more, and the line ends in the first half. */
  lemma ReadAhead(v: View)
    requires ValidView(v) && Left(v) != "" && FirstLength(Left(v)) < |v.unread|
    requires v.start + FirstLength(Left(v)) <= BUFF_SIZE / 2
    ensures var s, n := Left(v), FirstLength(Left(v));
            ReadOnce(v, BUFF_SIZE) == (Line(s[..n]), View(v.start + n, v.unread[n..], v.incoming, v.cuts))
    ensures Left(ReadOnce(v, BUFF_SIZE).1) == Left(v)[FirstLength(Left(v))..]
  {
    LineAtFront(Left(v));
    hide SplitLines, FirstLength, ReadOnce, IndexOf;
    var n := FirstLength(Left(v));
    FrontParts(v.unread, v.incoming, n);
    ReadBuffered(v, n);
  }

  lemma FrontParts(front: string, rest: string, n: nat)
    requires 0 < n <= |front|
    ensures front[..n] == (front + rest)[..n] && front[n..] + rest == (front + rest)[n..]
    ensures IndexOf(front + rest, '\n') == n - 1 ==> IndexOf(front, '\n') == n - 1
  {
    var s := front + rest;
    assert s[..|front|] == front;
    if IndexOf(s, '\n') == n - 1 {
      IndexInPrefix(s, n - 1, |front|);
    }
  }

  /** The first line arrives alone and is read; nothing else is in the buffer then. */
  lemma LineAlone(s: string, cuts: seq<nat>)
    requires s != "" && FirstLength(s) < |s| && FirstLength(s) < BUFF_SIZE
    ensures var n := FirstLength(s);
            ReadOnce(View(0, "", s, [n] + cuts), BUFF_SIZE) == (Line(s[..n]), View(0, "", s[n..], cuts))
  {
    var n := FirstLength(s);
    LineAtFront(s);
    hide FirstLength, ReadOnce, Await;
    FillExactly(s, n, cuts);
    IndexInPrefix(s, n - 1, n);
    ReadBuffered(View(0, s[..n], s[n..], cuts), n);
    assert s[..n][..n] == s[..n] && s[..n][n..] == "";
  }

  /** A receive of `n` bytes into the empty buffer. */
  lemma FillExactly(s: string, n: nat, cuts: seq<nat>)
    requires 0 < n <= |s| && n <= BUFF_SIZE
    ensures ReadOnce(View(0, "", s, [n] + cuts), BUFF_SIZE) == ReadOnce(View(0, s[..n], s[n..], cuts), BUFF_SIZE)
  {
    var v := View(0, "", s, [n] + cuts);
    assert Waits(v);
    assert ([n] + cuts)[1..] == cuts;
    assert Fill(v) == View(0, s[..n], s[n..], cuts);
    assert Await(v) == Await(Fill(v));
  }

  lemma FirstFill(s: string, n: nat)
    requires 0 < n <= |s| && n <= BUFF_SIZE
    ensures ReadAll(View(0, "", s, [n])) == ReadAll(View(0, s[..n], s[n..], []))
    ensures ReadOnce(View(0, "", s, [n]), BUFF_SIZE) == ReadOnce(View(0, s[..n], s[n..], []), BUFF_SIZE)
  {
    hide ReadAll, ReadOnce;
    assert [n] + [] == [n];
    FillExactly(s, n, []);
    ReadAllStep(View(0, "", s, [n]));
    ReadAllStep(View(0, s[..n], s[n..], []));
  }

  /** With these cuts a fresh reader does not give back the lines of the stream. */
  ghost predicate CutFor(s: string, cuts: seq<nat>) {
    ReadAll(View(0, "", s, cuts)) != SplitLines(s)
  }

  lemma LongFirstLine(s: string)
    requires s != "" && FirstLength(s) >= BUFF_SIZE
    ensures CutFor(s, [])
  {
    LineAtFront(s);
    LineCut(View(0, "", s, []));
  }

  /** The lines from the first to line `k` arrive together, but for the rest of line `k`. */
  lemma CutTogether(s: string, k: nat)
    requires k < |SplitLines(s)| && !FitBehind(SplitLines(s), 0, k)
    ensures exists cuts :: CutFor(s, cuts)
  {
    hide ReadAll, SplitLines, FirstLength, ReadOnce;
    SomeLine(s);
    if k == 0 {
      LongFirstLine(s);
    } else {
      var n := Length(SplitLines(s), 0, k) + 1;
      EnoughForLines(s, k);
      FirstFill(s, n);
      AheadOf(s, k, n);
      assert CutFor(s, [n]);
    }
  }

  lemma SomeLine(s: string)
    requires SplitLines(s) != []
    ensures s != "" && |SplitLines(s)[0]| == FirstLength(s)
  {
    LineAtFront(s);
  }

  lemma AheadOf(s: string, k: nat, n: nat)
    requires 0 < k < |SplitLines(s)| && !FitBehind(SplitLines(s), 0, k)
    requires n == Length(SplitLines(s), 0, k) + 1 <= |s|
    ensures n <= BUFF_SIZE && ReadAll(View(0, s[..n], s[n..], [])) != SplitLines(s)
  {
    hide ReadAll, SplitLines, Length;
    var v := View(0, s[..n], s[n..], []);
    assert Left(v) == s;
    CutAhead(v, SplitLines(s), k);
  }

  lemma EnoughForLines(s: string, k: nat)
    requires k < |SplitLines(s)|
    ensures Length(SplitLines(s), 0, k) < |s|
  {
    var lines := SplitLines(s);
    SplitLinesAreLines(s);
    assert forall l :: l in lines ==> l != "";
    LengthOfAll(lines, 0, k);
    assert lines[0..] == lines;
    SplitLinesJoin(s);
  }

  lemma {:induction false} LengthOfAll(lines: seq<string>, i: nat, k: nat)
    requires i <= k < |lines| && forall l :: l in lines ==> l != ""
    ensures Length(lines, i, k) < |Join(lines[i..])|
    decreases k - i
  {
    assert lines[i] in lines && lines[i..][1..] == lines[i + 1..];
    if i < k {
      LengthOfAll(lines, i + 1, k);
    }
  }

  lemma CutLater(s: string, cuts: seq<nat>)
    requires s != "" && FirstLength(s) < BUFF_SIZE && FirstLength(s) < |s|
    requires CutFor(s[FirstLength(s)..], cuts)
    ensures CutFor(s, [FirstLength(s)] + cuts)
  {
    hide ReadOnce, ReadAll, SplitLines, FirstLength;
    LineAtFront(s);
    LineAlone(s, cuts);
    ReadAllStep(View(0, "", s, [FirstLength(s)] + cuts));
    var line, rest := s[..FirstLength(s)], s[FirstLength(s)..];
    assert ([line] + ReadAll(View(0, "", rest, cuts)))[1..] == ReadAll(View(0, "", rest, cuts));
    assert ([line] + SplitLines(rest))[1..] == SplitLines(rest);
  }

  lemma {:induction false} SomeCut(s: string, i: nat, k: nat)
    requires i <= k < |SplitLines(s)| && !FitBehind(SplitLines(s), i, k)
    ensures exists cuts :: CutFor(s, cuts)
    decreases i
  {
    hide CutFor, SplitLines, FitBehind, FirstLength;
    if i == 0 {
      CutTogether(s, k);
    } else {
      SomeLine(s);
      if FirstLength(s) >= BUFF_SIZE {
        LongFirstLine(s);
      } else {
        NotFitLater(s, i, k);
        SomeCut(s[FirstLength(s)..], i - 1, k - 1);
        var cuts :| CutFor(s[FirstLength(s)..], cuts);
        CutLater(s, cuts);
      }
    }
  }

  lemma NotFitLater(s: string, i: nat, k: nat)
    requires s != "" && 1 <= i <= k < |SplitLines(s)| && !FitBehind(SplitLines(s), i, k)
    ensures var rest := s[FirstLength(s)..];
            rest != "" && k - 1 < |SplitLines(rest)| && !FitBehind(SplitLines(rest), i - 1, k - 1)
  {
    LineAtFront(s);
    assert SplitLines(s)[1..] == SplitLines(s[FirstLength(s)..]);
    LengthOfRest(SplitLines(s), i, k);
  }

  /** Repeated read_line calls of a fresh reader give exactly the lines of a stream for
      every way it may be cut, if and only if no line is too long behind consecutive
      lines before it that fit into half the buffer together. */
  lemma ReadExactlyIff(s: string)
    ensures (forall cuts :: !CutFor(s, cuts))
       <==> forall i, k :: 0 <= i <= k < |SplitLines(s)| ==> FitBehind(SplitLines(s), i, k)
  {
    var lines := SplitLines(s);
    WholeFreshIff(lines);
    if WholeFrom(0, lines) {
      forall cuts
        ensures !CutFor(s, cuts)
      {
        assert Left(View(0, "", s, cuts)) == s;
        WholeIsRead(View(0, "", s, cuts));
      }
    }
    if i, k :| 0 <= i <= k < |lines| && !FitBehind(lines, i, k) {
      SomeCut(s, i, k);
    }
  }

  /** Half the buffer is the limit for each single line: lines of 8192 and 8193 bytes
      are not read back under every cut. */
  lemma HalfIsTheLimit(first: string, second: string)
    requires IsLine(first, false) && |first| == BUFF_SIZE / 2
    requires IsLine(second, false) && |second| == BUFF_SIZE / 2 + 1
    ensures SplitLines(first + second) == [first, second]
    ensures exists cuts :: CutFor(first + second, cuts)
  {
    var s := first + second;
    FirstOfTwo(s, first, second);
    FirstOfTwo(second, second, "");
    assert second + "" == second;
    assert SplitLines(second) == [second];
    assert Length([first, second], 0, 1) == |first| + Length([first, second], 1, 1);
    assert !FitBehind([first, second], 0, 1);
    SomeCut(s, 0, 1);
  }

  lemma FirstOfTwo(stream: string, first: string, second: string)
    requires IsLine(first, false) && stream == first + second
    ensures IndexOf(stream, '\n') == |first| - 1 && FirstLength(stream) == |first|
    ensures stream[..|first|] == first && stream[|first|..] == second
  {
    var n := |first|;
    assert forall j :: 0 <= j < n - 1 ==> stream[j] == first[..n - 1][j];
    IndexOfUnique(stream, '\n', n - 1);
  }
}
