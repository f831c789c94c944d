/** HW3's two grammars, stated on the segments between the dots. */
module DotNames {
  import opened CStrings
  import opened Numerals

  // ----- splitting at the dots -----

  /** All segments between the dots, empty ones included. */
  function Split(s: string): (segs: seq<string>)
    ensures segs != []
    decreases |s|
  {
    var k := IndexOf(s, '.');
    if k == |s| then [s] else [s[..k]] + Split(s[k + 1..])
  }

  function Join(segs: seq<string>): string
    requires segs != []
  {
    if |segs| == 1 then segs[0] else segs[0] + "." + Join(segs[1..])
  }

  lemma {:induction false} SplitJoins(s: string)
    ensures Join(Split(s)) == s
    ensures forall seg :: seg in Split(s) ==> '.' !in seg
    decreases |s|
  {
    var k := IndexOf(s, '.');
    if k < |s| {
      SplitJoins(s[k + 1..]);
      assert Split(s)[1..] == Split(s[k + 1..]);
      assert s == s[..k] + "." + s[k + 1..];
    }
  }

  lemma SplitFirst(first: string, rest: string)
    requires '.' !in first
    ensures Split(first) == [first] && Split(first + "." + rest) == [first] + Split(rest)
  {
    var s := first + "." + rest;
    IndexOfUnique(first, '.', |first|);
    IndexOfUnique(s, '.', |first|);
    assert s[..|first|] == first && s[|first| + 1..] == rest;
  }

  lemma {:induction false} SplitOfJoin(segs: seq<string>)
    requires segs != [] && forall seg :: seg in segs ==> '.' !in seg
    ensures Split(Join(segs)) == segs
  {
    hide Split;
    assert segs[0] in segs;
    if |segs| > 1 {
      assert forall seg :: seg in segs[1..] ==> seg in segs;
      SplitFirst(segs[0], Join(segs[1..]));
      SplitOfJoin(segs[1..]);
    } else {
      SplitFirst(segs[0], "");
      assert segs == [segs[0]];
    }
  }

  /** The checks for a dot at either end and for two dots in a row. */
  predicate DotsFit(s: string) {
    && s != "" && s[0] != '.' && s[|s| - 1] != '.'
    && forall i :: 0 <= i < |s| - 1 ==> !(s[i] == '.' && s[i + 1] == '.')
  }

  /** Those checks find exactly the empty segments. */
  lemma {:induction false} DotsFitIff(s: string)
    ensures DotsFit(s) <==> "" !in Split(s)
    decreases |s|
  {
    var k := IndexOf(s, '.');
    if k < |s| {
      var rest := s[k + 1..];
      DotsFitIff(rest);
      assert s[..k] == "" <==> k == 0;
      DotsFitCut(s, k);
    }
  }

  lemma DotsFitCut(s: string, k: nat)
    requires k < |s| && s[k] == '.' && '.' !in s[..k]
    ensures DotsFit(s) <==> k > 0 && DotsFit(s[k + 1..])
  {
    var rest := s[k + 1..];
    assert forall i :: 0 <= i < k ==> s[i] == s[..k][i] && s[..k][i] in s[..k];
    assert forall i :: 0 <= i < |rest| ==> rest[i] == s[k + 1 + i];
    if k > 0 && DotsFit(rest) {
      forall i | 0 <= i < |s| - 1
        ensures !(s[i] == '.' && s[i + 1] == '.')
      {
        if i > k {
          assert rest[i - k - 1] == s[i];
        }
      }
    }
    if DotsFit(s) {
      forall i | 0 <= i < |rest| - 1
        ensures !(rest[i] == '.' && rest[i + 1] == '.')
      {
        assert rest[i] == s[k + 1 + i] && rest[i + 1] == s[k + 1 + i + 1];
      }
    }
  }

  /** The tokens that repeated strtok(…, ".") finds. */
  function Tokens(s: string): (t: seq<string>)
    decreases |s|
  {
    if s == "" then []
    else if s[0] == '.' then Tokens(s[1..])
    else var k := IndexOf(s, '.'); [s[..k]] + Tokens(s[k..])
  }

  function NonEmpty(segs: seq<string>): (t: seq<string>) {
    if segs == [] then []
    else (if segs[0] == "" then [] else [segs[0]]) + NonEmpty(segs[1..])
  }

  /** strtok loses the empty segments and nothing else. */
  lemma {:induction false} TokensAreSegments(s: string)
    ensures Tokens(s) == NonEmpty(Split(s))
    decreases |s|
  {
    var k := IndexOf(s, '.');
    if k == |s| {
      if s != "" {
        assert s[..k] == s && s[k..] == "";
      }
      assert NonEmpty([s]) == (if s == "" then [] else [s]);
    } else {
      TokensAreSegments(s[k + 1..]);
      assert Split(s)[1..] == Split(s[k + 1..]);
      if k > 0 {
        assert s[k..][0] == '.' && s[k..][1..] == s[k + 1..];
      }
    }
  }

  lemma {:induction false} NonEmptyKeepsAll(segs: seq<string>)
    requires "" !in segs
    ensures NonEmpty(segs) == segs
  {
    if segs != [] {
      NonEmptyKeepsAll(segs[1..]);
    }
  }

  lemma TokensAreSplit(s: string)
    requires DotsFit(s)
    ensures Tokens(s) == Split(s)
  {
    DotsFitIff(s);
    TokensAreSegments(s);
    NonEmptyKeepsAll(Split(s));
  }

  // ----- domain names -----

  predicate ValidLabel(l: string) {
    && 1 <= |l| <= 63 && l[0] != '-' && l[|l| - 1] != '-'
    && forall c :: c in l ==> IsAlnum(c) || c == '-'
  }

  predicate ValidLabels(labels: seq<string>) {
    && |labels| >= 2 && (forall l :: l in labels ==> ValidLabel(l))
    && |labels[|labels| - 1]| >= 2 && !AllDigits(labels[|labels| - 1])
  }

  predicate ValidDomain(s: string) {
    |s| <= 253 && ValidLabels(Split(s))
  }

  /** The grammar read the other way: valid names are valid labels with dots between. */
  lemma DomainGrammar(s: string)
    ensures ValidDomain(s) <==> |s| <= 253 && exists labels :: ValidLabels(labels) && s == Join(labels)
  {
    SplitJoins(s);
    forall labels | ValidLabels(labels) && s == Join(labels)
      ensures Split(s) == labels
    {
      forall l | l in labels
        ensures '.' !in l
      {
        assert ValidLabel(l);
      }
      SplitOfJoin(labels);
    }
  }

  // ----- dotted quads -----

  /** atoi on digits: strtol stops at the largest long, the cast keeps the low bits. */
  function Atoi(d: string): int
    requires AllDigits(d)
  {
    ToInt(if Value(d) < 0x8000_0000_0000_0000 then Value(d) else 0x7FFF_FFFF_FFFF_FFFF)
  }

  predicate FourNumbers(segs: seq<string>) {
    |segs| == 4 && forall seg :: seg in segs ==> seg != "" && AllDigits(seg)
  }

  predicate AcceptedNumber(seg: string) {
    seg != "" && AllDigits(seg) && 0 <= Atoi(seg) <= 255
  }

  /** What is_valid_ipv4 accepts. */
  predicate AcceptedIPv4(s: string) {
    |s| <= 16 && |Split(s)| == 4 && forall seg :: seg in Split(s) ==> AcceptedNumber(seg)
  }

  /** What it is meant to accept: four numbers up to 255. */
  predicate DottedQuad(s: string) {
    && |s| <= 16 && FourNumbers(Split(s))
    && forall seg :: seg in Split(s) ==> Value(seg) <= 255
  }

  /** A number of ten digits whose low 32 bits are at most 255. */
  predicate Wraps(seg: string) {
    AllDigits(seg) && (0x1_0000_0000 <= Value(seg) <= 0x1_0000_00FF || 0x2_0000_0000 <= Value(seg) <= 0x2_0000_00FF)
  }

  lemma LengthOfFour(segs: seq<string>)
    requires |segs| == 4
    ensures |Join(segs)| == |segs[0]| + |segs[1]| + |segs[2]| + |segs[3]| + 3
  {
    var two := segs[2..];
    assert segs[1..][1..] == two && two[1..] == [segs[3]];
    assert |Join(two)| == |segs[2]| + 1 + |segs[3]|;
    assert |Join(segs[1..])| == |segs[1]| + 1 + |Join(two)|;
  }

  lemma PowersOfTen()
    ensures Pow10(1) == 10 && Pow10(9) == 1_000_000_000 && Pow10(10) == 10_000_000_000
  {
    Pow10Grows(1);
    Pow10Grows(5);
    assert Pow10(9) == 10000 * Pow10(5);
    assert Pow10(10) == 10 * Pow10(9);
  }

  lemma {:induction false} Pow10Monotone(j: nat, k: nat)
    requires j <= k
    ensures Pow10(j) <= Pow10(k)
  {
    if j < k {
      Pow10Monotone(j, k - 1);
    }
  }

  lemma DigitsBound(seg: string, k: nat)
    requires AllDigits(seg) && |seg| <= k
    ensures Value(seg) < Pow10(k)
  {
    hide Value, Pow10;
    ValueBelow(seg);
    Pow10Monotone(|seg|, k);
  }

  lemma SegmentValue(seg: string)
    requires AllDigits(seg) && |seg| <= 10
    ensures 0 <= Atoi(seg) <= 255 <==> Value(seg) <= 255 || Wraps(seg)
    ensures |seg| <= 9 ==> !Wraps(seg)
    ensures |seg| <= 1 ==> Value(seg) <= 9
  {
    hide Value, Pow10, AllDigits;
    PowersOfTen();
    DigitsBound(seg, if |seg| <= 1 then 1 else if |seg| <= 9 then 9 else 10);
  }

  /** The segments of four numbers within 16 characters: each has at most ten digits,
      and beside one of ten the others have one. */
  lemma SegmentLengths(s: string, k: nat, j: nat)
    requires |s| <= 16 && FourNumbers(Split(s)) && k < 4 && j < 4
    ensures |Split(s)[k]| <= 10
    ensures |Split(s)[k]| == 10 && j != k ==> |Split(s)[j]| == 1
  {
    hide Split, Join, AllDigits;
    var segs := Split(s);
    SplitJoins(s);
    LengthOfFour(segs);
    assert segs[0] in segs && segs[1] in segs && segs[2] in segs && segs[3] in segs;
  }

  /** is_valid_ipv4 accepts the dotted quads, and it is right about a string if and only
      if that is not four numbers one of which wraps around to a small int. */
  lemma Ipv4RightIff(s: string)
    ensures DottedQuad(s) ==> AcceptedIPv4(s)
    ensures (AcceptedIPv4(s) <==> DottedQuad(s))
       <==> !(|s| <= 16 && FourNumbers(Split(s)) && exists seg :: seg in Split(s) && Wraps(seg))
  {
    if |s| <= 16 && FourNumbers(Split(s)) {
      var segs := Split(s);
      forall k | 0 <= k < 4
        ensures 0 <= Atoi(segs[k]) <= 255 <==> Value(segs[k]) <= 255 || Wraps(segs[k])
      {
        SegmentLengths(s, k, k);
        SegmentValue(segs[k]);
      }
      if k :| 0 <= k < 4 && Wraps(segs[k]) {
        WrappedIsAccepted(s, k);
      }
    }
  }

  lemma AcceptedBeside(s: string, k: nat, j: nat)
    requires |s| <= 16 && FourNumbers(Split(s)) && k < 4 && j < 4 && Wraps(Split(s)[k])
    ensures AcceptedNumber(Split(s)[j])
  {
    hide Split, Wraps;
    SegmentLengths(s, k, j);
    SegmentLengths(s, j, j);
    SegmentValue(Split(s)[k]);
    SegmentValue(Split(s)[j]);
  }

  lemma WrappedIsAccepted(s: string, k: nat)
    requires |s| <= 16 && FourNumbers(Split(s)) && k < 4 && Wraps(Split(s)[k])
    ensures AcceptedIPv4(s) && !DottedQuad(s)
  {
    hide Split, AcceptedNumber;
    var segs := Split(s);
    forall j | 0 <= j < 4
      ensures AcceptedNumber(segs[j])
    {
      AcceptedBeside(s, k, j);
    }
    assert segs[k] in segs && Value(segs[k]) > 255;
  }

  /** Such strings exist: 4294967296.0.0.0 is one. */
  lemma WrappedAddress() returns (s: string)
    ensures s == Join([Decimal(0x1_0000_0000), "0", "0", "0"])
    ensures AcceptedIPv4(s) && !DottedQuad(s)
  {
    hide Join, Decimal, Value;
    var big := Decimal(0x1_0000_0000);
    BigNumber(big);
    s := Join([big, "0", "0", "0"]);
    LengthOfFour([big, "0", "0", "0"]);
    SplitOfJoin([big, "0", "0", "0"]);
    WrappedIsAccepted(s, 0);
  }

  lemma BigNumber(big: string)
    requires big == Decimal(0x1_0000_0000)
    ensures |big| <= 10 && Wraps(big)
  {
    hide Decimal, Value, Pow10;
    PowersOfTen();
    DecimalLength(0x1_0000_0000, 10);
    ValueOfDecimal(0x1_0000_0000);
  }

  // ----- the classification -----

  predicate NumberOrDot(s: string) {
    forall c :: c in s ==> IsDigit(c) || c == '.'
  }

  lemma {:induction false} SegmentChars(s: string, seg: string, c: char)
    requires seg in Split(s) && c in seg
    ensures c in s
    decreases |s|
  {
    var k := IndexOf(s, '.');
    if k < |s| && seg != s[..k] {
      assert seg in Split(s[k + 1..]);
      SegmentChars(s[k + 1..], seg, c);
    }
  }

  lemma {:induction false} CharsOfSegments(s: string, c: char)
    requires c in s && c != '.'
    ensures exists seg :: seg in Split(s) && c in seg
    decreases |s|
  {
    var k := IndexOf(s, '.');
    if k < |s| {
      assert s == s[..k] + ['.'] + s[k + 1..];
      if c in s[..k] {
        assert s[..k] == Split(s)[0];
      } else {
        CharsOfSegments(s[k + 1..], c);
        var seg :| seg in Split(s[k + 1..]) && c in seg;
        assert seg in Split(s);
      }
    } else {
      assert Split(s)[0] == s;
    }
  }

  /** An accepted address is digits and dots. */
  lemma AcceptedIsNumberOrDot(s: string)
    ensures AcceptedIPv4(s) ==> NumberOrDot(s)
  {
    if AcceptedIPv4(s) {
      forall c | c in s && c != '.'
        ensures IsDigit(c)
      {
        CharsOfSegments(s, c);
      }
    }
  }

  /** Digits and dots are never a name, because the last label would be a number. */
  lemma NumberOrDotIsNoDomain(s: string)
    ensures NumberOrDot(s) ==> !ValidDomain(s)
  {
    if NumberOrDot(s) {
      var last := Split(s)[|Split(s)| - 1];
      SplitJoins(s);
      assert last in Split(s);
      forall c | c in last
        ensures IsDigit(c)
      {
        SegmentChars(s, last, c);
      }
    }
  }
}
