/** The UPLD command of HW4: how the client prints it and the server reads it. */
module UploadCommand {
  import opened CStrings
  import opened Numerals
  import opened Wrappers

  const BUFF_SIZE := 16384
  const ULONG_RANGE := 0x1_0000_0000_0000_0000

  datatype Upload = Upload(name: string, size: nat)

  // ----- reading -----

  function Digits(s: string): (d: string)
    ensures d <= s && (forall c :: c in d ==> IsDigit(c))
    ensures |d| < |s| ==> !IsDigit(s[|d|])
  {
    if s == "" || !IsDigit(s[0]) then "" else [s[0]] + Digits(s[1..])
  }

  lemma {:induction false} DigitsOfDigits(s: string)
    requires forall c :: c in s ==> IsDigit(c)
    ensures Digits(s) == s
  {
    if s != "" {
      DigitsOfDigits(s[1..]);
    }
  }

  /** %lu in scanf, the white space already skipped: a sign is accepted, a negative
      number wraps, one that is too large becomes the largest. */
  function ReadULong(s: string): (r: Option<nat>)
    ensures r.Some? ==> r.value < ULONG_RANGE
  {
    var signed := s != "" && (s[0] == '-' || s[0] == '+');
    var d := Digits(if signed then s[1..] else s);
    if d == "" then None
    else if Value(d) >= ULONG_RANGE then Some(ULONG_RANGE - 1)
    else if signed && s[0] == '-' then Some((ULONG_RANGE - Value(d)) % ULONG_RANGE)
    else Some(Value(d))
  }

  // ----- the command -----

  const KEYWORD := "UPLD"

  /** The command without its end of line, as snprintf makes it. */
  function Fields(name: string, digits: string): string {
    KEYWORD + (" " + (name + (" " + digits)))
  }

  /** What process_file_upload and send_message put on the wire. */
  function Command(name: string, size: nat): string {
    Fields(name, Decimal(size)) + "\r\n"
  }

  /** The loop that strips CR and LF from the end. */
  function StripEol(s: string): (t: string)
    ensures t <= s
  {
    if s != "" && (s[|s| - 1] == '\r' || s[|s| - 1] == '\n') then StripEol(s[..|s| - 1]) else s
  }

  /** %<max>s in scanf: the word and what follows it. */
  function NextWord(s: string, max: nat): (r: (string, string))
    ensures NoSpace(r.0) && |r.0| <= max
  {
    var t := SkipSpaces(s);
    var w := Word(t, max);
    (w, t[|w|..])
  }

  /** The first word is the keyword, and something follows it. */
  predicate KeywordFirst(line: string) {
    var s := SkipSpaces(line);
    KEYWORD <= s && |KEYWORD| < |s| && IsSpace(s[|KEYWORD|])
  }

  lemma KeywordThenMore(clean: string, more: string)
    requires KeywordFirst(clean)
    ensures KeywordFirst(clean + more)
  {
    SkipThenMore(clean, more);
  }

  /** A word of at most 15 characters, one of at most 255 and a number; all three must be
      there, and the first must be the keyword. */
  function ParseFields(clean: string): (u: Option<Upload>)
    ensures u.Some? ==> ValidName(u.value.name) && u.value.size < ULONG_RANGE
    ensures u.Some? ==> KeywordFirst(clean)
  {
    var first := NextWord(clean, 15);
    var second := NextWord(first.1, 255);
    var size := ReadULong(SkipSpaces(second.1));
    if first.0 != KEYWORD || second.0 == "" || size == None then None
    else Some(Upload(second.0, size.value))
  }

  /** parse_upload_command, on a C string. */
  function Parse(line: string): (u: Option<Upload>)
    ensures u.Some? ==> ValidName(u.value.name) && u.value.size < ULONG_RANGE
  {
    ParseFields(StripEol(if |line| < BUFF_SIZE then line else line[..BUFF_SIZE - 1]))
  }

  /** Nothing is taken for an upload whose first word is not the keyword. */
  lemma KeywordNeeded(line: string)
    ensures Parse(line).Some? ==> KeywordFirst(line)
  {
    hide ParseFields, StripEol, KeywordFirst;
    var clean := StripEol(if |line| < BUFF_SIZE then line else line[..BUFF_SIZE - 1]);
    assert Parse(line) == ParseFields(clean);
    hide Parse;
    assert line == clean + line[|clean|..];
    if KeywordFirst(clean) {
      KeywordThenMore(clean, line[|clean|..]);
    }
  }

  /** Names the protocol can carry. */
  predicate ValidName(name: string) {
    name != "" && NoSpace(name) && |name| <= 255
  }

  lemma ReadDigits(d: string)
    requires d != "" && AllDigits(d)
    ensures ReadULong(d) == if Value(d) >= ULONG_RANGE then Some(ULONG_RANGE - 1) else Some(Value(d))
    ensures SkipSpaces(" " + d) == d
  {
    hide Value, SkipSpaces, Digits;
    DigitsOfDigits(d);
    assert IsDigit(d[0]) by {
      assert d[0] in d;
    }
    SkipOneSpace(d);
  }

  /** A word that fits is read whole, with or without a space in front. */
  lemma NextWordIs(w: string, rest: string, max: nat)
    requires w != "" && NoSpace(w) && |w| <= max
    requires rest == "" || IsSpace(rest[0])
    ensures NextWord(w + rest, max) == (w, rest) && NextWord(" " + (w + rest), max) == (w, rest)
  {
    assert w[0] in w && (w + rest)[0] == w[0];
    SkipNoSpaces(w + rest);
    SkipOneSpace(w + rest);
    WordOfPrefix(w, rest, max);
    assert (w + rest)[|w|..] == rest;
  }

  lemma NoNextWord(s: string, max: nat)
    requires AllSpaces(s)
    ensures SkipSpaces(s) == "" && NextWord(s, max) == ("", "")
  {
    SkipLead(s, "");
    assert s + "" == s;
  }

  lemma KeywordRead(rest: string)
    requires rest == "" || IsSpace(rest[0])
    ensures NextWord(KEYWORD + rest, 15) == (KEYWORD, rest)
  {
    NextWordIs(KEYWORD, rest, 15);
  }

  lemma ParseWords(clean: string, rest: string, name: string, last: string, d: string)
    requires NextWord(clean, 15) == (KEYWORD, rest) && NextWord(rest, 255) == (name, last)
    requires name != "" && SkipSpaces(last) == d
    ensures ParseFields(clean) == if ReadULong(d) == None then None else Some(Upload(name, ReadULong(d).value))
  {
  }

  lemma ParseThree(name: string, d: string)
    requires ValidName(name) && d != "" && AllDigits(d)
    ensures ReadULong(d).Some? && ParseFields(Fields(name, d)) == Some(Upload(name, ReadULong(d).value))
  {
    ReadDigits(d);
    var rest := " " + (name + (" " + d));
    KeywordRead(rest);
    NextWordIs(name, " " + d, 255);
    ParseWords(Fields(name, d), rest, name, " " + d, d);
  }

  lemma StripOnce(s: string, c: char)
    requires c == '\r' || c == '\n'
    ensures StripEol(s + [c]) == StripEol(s)
  {
    assert (s + [c])[..|s|] == s;
  }

  lemma StripNothing(s: string)
    requires s == "" || (s[|s| - 1] != '\r' && s[|s| - 1] != '\n')
    ensures StripEol(s) == s
  {
  }

  lemma FieldsEnd(name: string, d: string)
    requires d != "" && AllDigits(d)
    ensures StripEol(Fields(name, d)) == Fields(name, d)
  {
    var clean := Fields(name, d);
    assert clean[|clean| - 1] == d[|d| - 1] && d[|d| - 1] in d;
    StripNothing(clean);
  }

  /** A command, whole or cut inside its end of line, is stripped to its fields. */
  lemma StripCommand(name: string, size: nat, k: nat)
    requires |Command(name, size)| - 2 <= k <= |Command(name, size)|
    ensures StripEol(Command(name, size)[..k]) == Fields(name, Decimal(size))
  {
    var clean := Fields(name, Decimal(size));
    var line := Command(name, size)[..k];
    FieldsEnd(name, Decimal(size));
    StripOnce(clean, '\r');
    StripOnce(clean + ['\r'], '\n');
    assert line == clean || line == clean + ['\r'] || line == clean + ['\r'] + ['\n'];
  }

  lemma ParseValid(name: string, size: nat)
    requires size < ULONG_RANGE && |Command(name, size)| < BUFF_SIZE && ValidName(name)
    ensures Parse(Command(name, size)) == Some(Upload(name, size))
  {
    var line := Command(name, size);
    assert line[..|line|] == line;
    StripCommand(name, size, |line|);
    var d := Decimal(size);
    ParseThree(name, d);
    ReadDigits(d);
    ValueOfDecimal(size);
  }

  /** The server reads back exactly the name and the size that the client printed
      if and only if the name is one the protocol can carry: not empty, without
      white space, and at most 255 bytes. */
  lemma ParseInvertsCommand(name: string, size: nat)
    requires size < ULONG_RANGE && |Command(name, size)| < BUFF_SIZE
    ensures Parse(Command(name, size)) == Some(Upload(name, size)) <==> ValidName(name)
  {
    if ValidName(name) {
      ParseValid(name, size);
    } else {
      var u := Parse(Command(name, size));
      assert u.Some? ==> ValidName(u.value.name);
    }
  }

  // ----- commands cut short by the end of the connection -----

  lemma CutBeforeName(k: nat)
    requires k <= 4
    ensures ParseFields(KEYWORD[..k]) == None && ParseFields(KEYWORD + " ") == None
  {
    hide ParseFields, NextWord, SkipSpaces, IsSpace;
    CutInKeyword(k);
    OneSpace();
    NoNextWord(" ", 255);
    KeywordRead(" ");
    NothingBehind(KEYWORD + " ", " ");
  }

  lemma OneSpace()
    ensures AllSpaces(" ") && IsSpace(' ')
  {
  }

  lemma NothingBehind(clean: string, rest: string)
    requires NextWord(clean, 15) == (KEYWORD, rest) && NextWord(rest, 255).0 == ""
    ensures ParseFields(clean) == None
  {
    hide NextWord, ReadULong, SkipSpaces, KeywordFirst;
  }

  lemma NotKeyword(clean: string)
    requires NextWord(clean, 15).0 != KEYWORD
    ensures ParseFields(clean) == None
  {
    hide NextWord, ReadULong, SkipSpaces, KeywordFirst;
  }

  lemma OnlyKeyword()
    ensures ParseFields(KEYWORD) == None
  {
    KeywordRead("");
    NoNextWord("", 255);
    hide ParseFields, NextWord, SkipSpaces;
    assert KEYWORD + "" == KEYWORD;
    NothingBehind(KEYWORD, "");
  }

  lemma CutInKeyword(k: nat)
    requires k <= 4
    ensures ParseFields(KEYWORD[..k]) == None
  {
    hide ParseFields, NextWord, SkipSpaces;
    var w := KEYWORD[..k];
    if k == 4 {
      assert w == KEYWORD;
      OnlyKeyword();
    } else {
      assert |w| == k && NoSpace(w);
      if k == 0 {
        assert w == "";
        NoNextWord(w, 15);
      } else {
        NextWordIs(w, "", 15);
        assert w + "" == w;
      }
      NotKeyword(w);
    }
  }

  lemma CutBeforeSize(name: string, end: string)
    requires name != "" && NoSpace(name) && |name| <= 255 && end in {"", " "}
    ensures ParseFields(KEYWORD + (" " + (name + end))) == None
  {
    KeywordRead(" " + (name + end));
    NextWordIs(name, end, 255);
    NoNextWord(end, 255);
  }

  lemma CutInSize(name: string, d: string, size: nat)
    requires ValidName(name) && d != "" && d <= Decimal(size)
    ensures var u := ParseFields(Fields(name, d));
            u.Some? && u.value.name == name && (u.value.size == 0 ==> size == 0)
  {
    assert forall c :: c in d ==> c in Decimal(size);
    ParseThree(name, d);
    ReadDigits(d);
    if size > 0 {
      DecimalLead(size);
      ValuePositive(d);
    }
  }

  lemma CutConcat(a: string, b: string, k: nat)
    requires k <= |a| + |b|
    ensures (a + b)[..k] == if k <= |a| then a[..k] else a + b[..k - |a|]
  {
  }

  /** The fields cut at any point. */
  lemma CutFields(name: string, d: string, k: nat)
    requires k <= |Fields(name, d)|
    ensures var line := Fields(name, d)[..k];
            || (k <= 4 && line == KEYWORD[..k])
            || (k == 5 && line == KEYWORD + " ")
            || (5 < k <= 5 + |name| && line == KEYWORD + (" " + (name[..k - 5] + "")))
            || (k == 6 + |name| && line == KEYWORD + (" " + (name + " ")))
            || (k > 6 + |name| && line == Fields(name, d[..k - 6 - |name|]))
  {
    var c := " " + d;
    var b := name + c;
    var a := " " + b;
    CutConcat(KEYWORD, a, k);
    if k > 4 {
      CutConcat(" ", b, k - 4);
      if k > 5 {
        CutConcat(name, c, k - 5);
        if k > 5 + |name| {
          CutConcat(" ", d, k - 5 - |name|);
        } else {
          assert name[..k - 5] + "" == name[..k - 5];
        }
      } else {
        assert " "[..1] == " ";
      }
    }
  }

  lemma NoEolInside(name: string, d: string, k: nat)
    requires NoSpace(name) && AllDigits(d) && k <= |Fields(name, d)|
    ensures StripEol(Fields(name, d)[..k]) == Fields(name, d)[..k]
  {
    var clean := Fields(name, d);
    forall c | c in clean
      ensures c != '\r' && c != '\n'
    {
      assert c in KEYWORD || c == ' ' || c in name || c in d;
    }
    assert forall c :: c in clean[..k] ==> c in clean;
    assert k > 0 ==> clean[..k][k - 1] in clean[..k];
    StripNothing(clean[..k]);
  }

  /** Whatever is left of a command for a valid name is either refused or names the
      right file, and says size 0 only if the file is empty. */
  lemma CutCommand(name: string, size: nat, k: nat)
    requires ValidName(name) && |Command(name, size)| < BUFF_SIZE && k <= |Command(name, size)|
    ensures var u := Parse(Command(name, size)[..k]);
            u.Some? ==> u.value.name == name && (u.value.size == 0 ==> size == 0)
  {
    hide ParseFields, StripEol, Decimal;
    var d := Decimal(size);
    if k > |Fields(name, d)| {
      StripCommand(name, size, k);
      CutInSize(name, d, size);
    } else {
      CutConcat(Fields(name, d), "\r\n", k);
      NoEolInside(name, d, k);
      CutFields(name, d, k);
      CutCases(name, size, k);
    }
  }

  lemma CutCases(name: string, size: nat, k: nat)
    requires ValidName(name) && k <= |Fields(name, Decimal(size))|
    ensures var u := ParseFields(Fields(name, Decimal(size))[..k]);
            u.Some? ==> u.value.name == name && (u.value.size == 0 ==> size == 0)
  {
    var d := Decimal(size);
    CutFields(name, d, k);
    if k <= 5 {
      CutBeforeName(if k <= 4 then k else 4);
    } else if k <= 5 + |name| {
      CutBeforeSize(name[..k - 5], "");
    } else if k == 6 + |name| {
      CutBeforeSize(name, " ");
    } else {
      CutInSize(name, d[..k - 6 - |name|], size);
    }
  }
}
