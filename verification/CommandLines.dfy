/** Which command a line of the login server carries, said of the line itself, and the
    lines it is answered with: HW7/TCP-multithread-main/TCP_Server/protocol/protocol.c. */
module CommandLines {
  import opened CStrings
  import opened Framing
  import opened Numerals
  import opened Sessions

  /** A line is white space, a word, white space, and a text that starts with something
      else; a blank line has no word. */
  predicate LineOf(line: string, lead: string, word: string, gap: string, text: string) {
    && line == lead + (word + (gap + text))
    && AllSpaces(lead) && NoSpace(word) && AllSpaces(gap)
    && (word == "" ==> gap == "" && text == "")
    && (text != "" ==> gap != "" && !IsSpace(text[0]))
  }

  /** Every line is. */
  lemma LineHasForm(line: string) returns (lead: string, word: string, gap: string, text: string)
    ensures LineOf(line, lead, word, gap, text)
  {
    var s, rest;
    lead, s := CutSpaces(line);
    word, rest := CutWord(s);
    gap, text := CutSpaces(rest);
    hide AllSpaces, NoSpace;
    assert gap == "" ==> gap + text == text;
  }

  lemma CutWord(s: string) returns (word: string, rest: string)
    requires s == "" || !IsSpace(s[0])
    ensures s == word + rest && NoSpace(word) && (rest == "" || IsSpace(rest[0])) && (word == "" ==> rest == "")
  {
    word := Word(s, |s|);
    rest := s[|word|..];
  }

  lemma CutSpaces(s: string) returns (lead: string, rest: string)
    ensures s == lead + rest && AllSpaces(lead) && (rest == "" || !IsSpace(rest[0]))
    ensures rest == SkipSpaces(s)
  {
    rest := SkipSpaces(s);
    lead := s[..|s| - |rest|];
    SkippedIsSpace(s);
  }

  /** What fits into the argument. */
  function Argument(text: string): string {
    if |text| < MAX_NAME then text else text[..MAX_NAME - 1]
  }

  /** USER, POST and BYE are the commands, each with the text behind it; nothing else is
      one, neither a longer word nor a blank line. */
  lemma CommandRead(line: string, lead: string, word: string, gap: string, text: string)
    requires LineOf(line, lead, word, gap, text) && '\n' !in text
    ensures Interpret(line) ==
            if word == "USER" then USER(Argument(text))
            else if word == "POST" then POST(Argument(text))
            else if word == "BYE" then BYE
            else Undefined
  {
    FieldsRead(line, lead, word, gap, text);
    hide Fields, Argument, LineOf, NoSpace;
    if |word| > 9 {
      assert |Fields(line).0| == 9;
      OtherCommand(line);
    } else {
      Dispatched(line, word, Argument(text));
    }
  }

  lemma OtherCommand(line: string)
    requires |Fields(line).0| == 9
    ensures Interpret(line) == Undefined
  {
    hide Fields;
  }

  lemma Dispatched(line: string, word: string, arg: string)
    requires Fields(line) == (word, arg)
    ensures Interpret(line) ==
            if word == "USER" then USER(arg)
            else if word == "POST" then POST(arg)
            else if word == "BYE" then BYE
            else Undefined
  {
    hide Fields;
  }

  lemma FieldsRead(line: string, lead: string, word: string, gap: string, text: string)
    requires LineOf(line, lead, word, gap, text) && '\n' !in text
    ensures |word| <= 9 ==> Fields(line) == (word, Argument(text))
    ensures |word| > 9 ==> Fields(line).0 == word[..9]
  {
    var s := word + (gap + text);
    WordFirst(word, gap, text);
    SkipLead(lead, s);
    if |word| <= 9 {
      WordOfPrefix(word, gap + text, 9);
      SkipLead(gap, text);
      IndexOfUnique(text, '\n', |text|);
      assert s[|word|..] == gap + text;
      FieldsAre(line, s, word, text);
    } else {
      WordOfLong(word, gap + text, 9);
      hide SkipSpaces, Word, IndexOf;
    }
  }

  lemma FieldsAre(line: string, s: string, word: string, text: string)
    requires SkipSpaces(line) == s && Word(s, 9) == word
    requires SkipSpaces(s[|word|..]) == text && IndexOf(text, '\n') == |text|
    requires word == "" ==> text == ""
    ensures Fields(line) == (word, Argument(text))
  {
    hide SkipSpaces, Word, IndexOf;
    assert text[..|text|] == text;
  }

  lemma WordFirst(word: string, gap: string, text: string)
    requires NoSpace(word) && AllSpaces(gap)
    requires (word == "" ==> gap == "" && text == "") && (text != "" ==> gap != "")
    ensures var s := word + (gap + text); s == "" || !IsSpace(s[0])
    ensures gap + text == "" || IsSpace((gap + text)[0])
  {
    assert word != "" ==> word[0] in word;
    assert gap != "" ==> gap[0] in gap;
  }

  /** A carriage return at the end of a line does not matter. */
  lemma ReturnDropped(line: string)
    ensures CommandOf(line + "\r") == Interpret(line)
    ensures line == "" || line[|line| - 1] != '\r' ==> CommandOf(line) == Interpret(line)
  {
    assert (line + "\r")[..|line|] == line;
  }

  /** A text that starts with a number of three digits and ends a line. */
  predicate NumberedLine(text: string, code: nat) {
    && |text| > 4 && text[..3] == Decimal(code) && text[3] == ' ' && text[|text| - 1] == '\n'
  }

  /** Each reply starts with the decided code. */
  lemma ReplyHasCode(req: Request, local: Local, users: seq<User>, fd: int, ss: seq<Session>)
    ensures var code := Execute(req, local, users, fd, ss).code;
            code >= 100 && NumberedLine(ReplyText(req, code), code)
  {
    var code := Execute(req, local, users, fd, ss).code;
    match req
    case USER(_) =>
      assert code in {110, 211, 212, 213, 214, 300};
      UserReplyHasCode(code);
    case POST(_) => OtherReplyHasCode(req, code);
    case BYE => OtherReplyHasCode(req, code);
    case Undefined => OtherReplyHasCode(req, code);
  }

  lemma UserReplyHasCode(code: int)
    requires code in {110, 211, 212, 213, 214, 300}
    ensures NumberedLine(UserReply(code), code)
  {
    hide NumberedLine;
    LoginText();
    BlockedText();
    NoAccountText();
    AlreadyText();
    ElsewhereText();
    UndefinedText();
  }

  lemma LoginText()
    ensures NumberedLine("110 Login successful\n", 110)
  {
    hide NumberedLine;
    Numbered("110 Login successful\n", 110);
  }

  lemma BlockedText()
    ensures NumberedLine("211 Account is blocked\n", 211)
  {
    hide NumberedLine;
    Numbered("211 Account is blocked\n", 211);
  }

  lemma NoAccountText()
    ensures NumberedLine("212 Account does not exist\n", 212)
  {
    hide NumberedLine;
    Numbered("212 Account does not exist\n", 212);
  }

  lemma AlreadyText()
    ensures NumberedLine("213 Already logged in\n", 213)
  {
    hide NumberedLine;
    Numbered("213 Already logged in\n", 213);
  }

  lemma UndefinedText()
    ensures NumberedLine("300 Undefined command\n", 300)
  {
    hide NumberedLine;
    Numbered("300 Undefined command\n", 300);
  }

  lemma PostText()
    ensures NumberedLine("120 Post message successful\n", 120)
  {
    hide NumberedLine;
    Numbered("120 Post message successful\n", 120);
  }

  lemma LogoutText()
    ensures NumberedLine("130 Logout successful\n", 130)
  {
    hide NumberedLine;
    Numbered("130 Logout successful\n", 130);
  }

  lemma LoginFirstText()
    ensures NumberedLine("221 You must login first\n", 221)
  {
    hide NumberedLine;
    Numbered("221 You must login first\n", 221);
  }

  lemma ElsewhereText()
    ensures NumberedLine("214 Account is already" + " logged in on another client\n", 214)
  {
    hide NumberedLine;
    Numbered("214 Account is already" + " logged in on another client\n", 214);
  }

  lemma Numbered(text: string, code: nat)
    requires 100 <= code < 1000 && |text| > 4
    requires text[0] == Digit(code / 100) && text[1] == Digit(code / 10 % 10) && text[2] == Digit(code % 10)
    requires text[3] == ' ' && text[|text| - 1] == '\n'
    ensures NumberedLine(text, code)
  {
    DecimalOfThree(code);
    hide Decimal;
    assert text[..3] == [text[0], text[1], text[2]];
  }

  lemma OtherReplyHasCode(req: Request, code: int)
    requires match req
             case USER(_) => false
             case POST(_) => code == 120 || code == 221
             case BYE => code == 130 || code == 221
             case Undefined => code == 300
    ensures NumberedLine(ReplyText(req, code), code)
  {
    hide NumberedLine;
    PostText();
    LogoutText();
    LoginFirstText();
    UndefinedText();
  }

  lemma GreetingsHaveCode()
    ensures NumberedLine(WELCOME, 100) && NumberedLine(SERVER_FULL, 500)
  {
    DecimalOfThree(100);
    DecimalOfThree(500);
    hide Decimal;
    assert WELCOME[..3] == ['1', '0', '0'] && SERVER_FULL[..3] == ['5', '0', '0'];
  }

  lemma DecimalOfThree(n: nat)
    requires 100 <= n < 1000
    ensures Decimal(n) == [Digit(n / 100), Digit(n / 10 % 10), Digit(n % 10)]
  {
    assert Decimal(n / 10) == Decimal(n / 100) + [Digit(n / 10 % 10)];
  }
}
