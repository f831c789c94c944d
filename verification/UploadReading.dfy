/** What parse_upload_command of HW4/TCP_Server/server.c makes of any line, said of the
    line itself: its words, the white space between them, and the number. */
module UploadReading {
  import opened CStrings
  import opened Numerals
  import opened UploadCommand
  import opened Wrappers

  /** A line whose first word is not the keyword is refused, whatever follows. */
  lemma OtherWordRefused(lead: string, word: string, rest: string)
    requires AllSpaces(lead) && NoSpace(word) && word != KEYWORD
    requires word == "" ==> rest == ""
    requires rest == "" || IsSpace(rest[0])
    ensures ParseFields(lead + (word + rest)) == None
  {
    if word == "" {
      assert lead + ("" + "") == lead;
      NoNextWord(lead, 15);
    } else {
      assert word[0] in word && (word + rest)[0] == word[0];
      SkipLead(lead, word + rest);
      FirstWord(word, rest, 15);
    }
  }

  lemma FirstWord(word: string, rest: string, max: nat)
    requires NoSpace(word) && (rest == "" || IsSpace(rest[0]))
    ensures Word(word + rest, max) == if |word| <= max then word else word[..max]
  {
    if |word| <= max {
      WordOfPrefix(word, rest, max);
    } else {
      WordOfLong(word, rest, max);
    }
  }

  /** The keyword, a name and a number with white space between them are read as an
      upload of that name and size, and refused only if there is no number. */
  lemma UploadRead(lead: string, gap: string, name: string, gap': string, number: string)
    requires AllSpaces(lead) && AllSpaces(gap) && AllSpaces(gap') && gap != "" && ValidName(name)
    requires number != "" ==> gap' != "" && !IsSpace(number[0])
    ensures ParseFields(lead + (KEYWORD + (gap + (name + (gap' + number))))) ==
            if ReadULong(number) == None then None else Some(Upload(name, ReadULong(number).value))
  {
    var last := gap' + number;
    var rest := gap + (name + last);
    assert gap[0] in gap && name[0] in name && (gap' != "" ==> gap'[0] in gap');
    WordRead(lead, KEYWORD, rest, 15);
    WordRead(gap, name, last, 255);
    SkipLead(gap', number);
    ParseWords(lead + (KEYWORD + rest), rest, name, last, number);
  }

  lemma WordRead(lead: string, word: string, rest: string, max: nat)
    requires AllSpaces(lead) && word != "" && NoSpace(word) && |word| <= max && (rest == "" || IsSpace(rest[0]))
    ensures NextWord(lead + (word + rest), max) == (word, rest)
  {
    assert word[0] in word && (word + rest)[0] == word[0];
    SkipLead(lead, word + rest);
    WordOfPrefix(word, rest, max);
    assert (word + rest)[|word|..] == rest;
  }

  /** A number without a name in front of it is a name without a number. */
  lemma NoNameRefused(lead: string, gap: string)
    requires AllSpaces(lead) && AllSpaces(gap)
    ensures ParseFields(lead + (KEYWORD + gap)) == None
  {
    assert gap != "" ==> gap[0] in gap;
    WordRead(lead, KEYWORD, gap, 15);
    NoNextWord(gap, 255);
  }

  /** Numbers end at the first character that is not a digit. A sign is taken; a negative
      number counts down from the largest, and one that does not fit is the largest. */
  lemma NumberRead(sign: string, digits: string, rest: string)
    requires sign in {"", "+", "-"} && digits != "" && AllDigits(digits)
    requires rest == "" || !IsDigit(rest[0])
    ensures ReadULong(sign + (digits + rest)) ==
            if Value(digits) >= ULONG_RANGE then Some(ULONG_RANGE - 1)
            else if sign == "-" && Value(digits) > 0 then Some(ULONG_RANGE - Value(digits))
            else Some(Value(digits))
  {
    DigitsThenRest(digits, rest);
    if sign == "" {
      assert sign + (digits + rest) == digits + rest;
      assert digits[0] in digits && (digits + rest)[0] == digits[0];
      UnsignedRead(digits + rest, digits);
    } else {
      SignedRead(sign, digits + rest, digits);
    }
  }

  lemma UnsignedRead(s: string, digits: string)
    requires s != "" && IsDigit(s[0]) && Digits(s) == digits && digits != ""
    ensures AllDigits(digits)
    ensures ReadULong(s) == Some(if Value(digits) >= ULONG_RANGE then ULONG_RANGE - 1 else Value(digits))
  {
    hide Value, Digits;
  }

  lemma SignedRead(sign: string, s: string, digits: string)
    requires sign in {"+", "-"} && Digits(s) == digits && digits != ""
    ensures AllDigits(digits)
    ensures ReadULong(sign + s) ==
            if Value(digits) >= ULONG_RANGE then Some(ULONG_RANGE - 1)
            else if sign == "-" && Value(digits) > 0 then Some(ULONG_RANGE - Value(digits))
            else Some(Value(digits))
  {
    hide Value, Digits;
    assert (sign + s)[1..] == s && (sign + s)[0] == sign[0];
  }

  /** Without a digit behind the sign there is no number. */
  lemma NoNumberRead(sign: string, rest: string)
    requires sign in {"", "+", "-"} && (rest == "" || !IsDigit(rest[0]))
    requires sign == "" && rest != "" ==> rest[0] != '+' && rest[0] != '-'
    ensures ReadULong(sign + rest) == None
  {
    if sign != "" {
      assert (sign + rest)[1..] == rest;
    }
  }

  lemma {:induction false} DigitsThenRest(digits: string, rest: string)
    requires AllDigits(digits) && (rest == "" || !IsDigit(rest[0]))
    ensures Digits(digits + rest) == digits
  {
    if digits == "" {
      assert digits + rest == rest;
    } else {
      assert digits[0] in digits && (digits + rest)[1..] == digits[1..] + rest;
      DigitsThenRest(digits[1..], rest);
    }
  }

  /** All carriage returns and newlines at the end are dropped, and only those. */
  lemma {:induction false} EndDropped(line: string, end: string)
    requires forall c :: c in end ==> c == '\r' || c == '\n'
    requires line == "" || (line[|line| - 1] != '\r' && line[|line| - 1] != '\n')
    ensures StripEol(line + end) == line
  {
    var s := line + end;
    if end == "" {
      assert s == line;
      StripNothing(line);
    } else {
      var n := |end| - 1;
      assert end[n] in end && s[|s| - 1] == end[n];
      assert s[..|s| - 1] == line + end[..n];
      assert forall c :: c in end[..n] ==> c in end;
      EndDropped(line, end[..n]);
    }
  }
}
