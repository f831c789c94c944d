/** HW3/UDP_Server/validation.c: the scans, with strtok at work on a copy. */
module Validation {
  import opened Buffers
  import opened CStrings
  import opened DotNames
  import opened Numerals

  datatype Token = NoToken | At(start: nat)

  /** The token at `start` of a buffer, with the NUL that ends it. */
  ghost predicate TokenAt(b: seq<char>, start: nat, text: string) {
    && start + |text| < |b| && b[start..start + |text|] == text
    && b[start + |text|] == NUL && NUL !in text
  }

  /** All before `n` and all NULs are as they were. */
  ghost predicate Kept(was: seq<char>, b: seq<char>, n: nat) {
    |b| == |was| && forall j :: 0 <= j < |b| && (j < n || was[j] == NUL) ==> b[j] == was[j]
  }

  lemma TokenStays(was: seq<char>, b: seq<char>, n: nat, start: nat, text: string)
    requires TokenAt(was, start, text) && start + |text| <= n && Kept(was, b, n)
    ensures TokenAt(b, start, text)
  {
    assert forall j :: start <= j < start + |text| ==> b[j] == was[j];
    assert b[start..start + |text|] == was[start..start + |text|];
  }

  lemma {:induction false} SkipDots(s: string, k: nat)
    requires k <= |s| && forall j :: 0 <= j < k ==> s[j] == '.'
    ensures Tokens(s) == Tokens(s[k..])
  {
    if k > 0 {
      SkipDots(s[1..], k - 1);
      assert s[1..][k - 1..] == s[k..];
    }
  }

  lemma OnlyDots(was: seq<char>, save: nat, end: nat)
    requires save <= end <= |was| && forall j :: save <= j < end ==> was[j] == '.'
    ensures Tokens(was[save..end]) == []
  {
    SkipDots(was[save..end], end - save);
  }

  lemma FirstToken(s: string, k: nat)
    requires 0 < k <= |s| && s[0] != '.' && IndexOf(s, '.') == k
    ensures Tokens(s) == [s[..k]] + Tokens(s[k..])
  {
  }

  /** The token from `s` to `e`, found in what was left from `save` to `end`. */
  lemma TokenFound(was: seq<char>, save: nat, s: nat, e: nat, end: nat)
    requires save <= s < e <= end < |was|
    requires forall j :: save <= j < s ==> was[j] == '.'
    requires forall j :: s <= j < e ==> was[j] != '.'
    requires e < end ==> was[e] == '.'
    ensures Tokens(was[save..end]) == [was[s..e]] + Tokens(was[e..end])
  {
    hide Tokens;
    SkipDots(was[save..end], s - save);
    var rest := was[s..end];
    assert was[save..end][s - save..] == rest;
    IndexOfUnique(rest, '.', e - s);
    FirstToken(rest, e - s);
    assert rest[..e - s] == was[s..e] by {
      assert forall j :: 0 <= j < e - s ==> rest[j] == was[s..e][j];
    }
    assert rest[e - s..] == was[e..end];
  }

  lemma AfterToken(was: seq<char>, e: nat, end: nat)
    requires e <= end < |was| && (e < end ==> was[e] == '.')
    ensures var next := if e < end then e + 1 else e;
            Tokens(was[e..end]) == Tokens(was[e := NUL][next..end])
  {
    var next := if e < end then e + 1 else e;
    SkipDots(was[e..end], next - e);
    assert was[e..end][next - e..] == was[e := NUL][next..end];
  }

  lemma TokenClosed(was: seq<char>, s: nat, e: nat)
    requires s <= e < |was| && (was[e] == '.' || was[e] == NUL)
    requires forall j :: s <= j < e ==> was[j] != NUL
    ensures TokenAt(was[e := NUL], s, was[s..e])
  {
    assert was[e := NUL][s..e] == was[s..e];
  }

  /** A copy of a string and what strtok remembers of it. `end` is where the string
      ends, `save` where the next call starts. */
  class Tokenizer {
    const buf: array<char>
    var save: nat
    ghost const end: nat

    ghost predicate Valid()
      reads this, buf
    {
      && save <= end < buf.Length && buf[end] == NUL
      && forall j :: save <= j < end ==> buf[j] != NUL
    }

    /** What has not been scanned yet. */
    ghost function Rest(): string
      reads this, buf
      requires Valid()
    {
      buf[save..end]
    }

    /** strcpy or strncpy into a local array that is long enough. */
    constructor (s: string, size: nat)
      requires |s| < size && NUL !in s
      ensures Valid() && Rest() == s && fresh(buf)
    {
      buf := new char[size](_ => NUL);
      save := 0;
      end := |s|;
      new;
      forall i | 0 <= i < |s| {
        buf[i] := s[i];
      }
      assert forall i :: 0 <= i < |s| ==> s[i] in s;
      assert buf[0..|s|] == s;
    }

    /** strtok(…, "."): skips dots, and writes a NUL over the dot behind the token. It
        writes at no other place, so that earlier tokens stay as they are. */
    method Next() returns (token: Token)
      requires Valid()
      modifies this`save, buf
      ensures Valid() && Kept(old(buf[..]), buf[..], old(save))
      ensures token == NoToken <==> Tokens(old(Rest())) == []
      ensures token != NoToken ==>
                && TokenAt(buf[..], token.start, Tokens(old(Rest()))[0])
                && token.start + |Tokens(old(Rest()))[0]| <= save
                && Tokens(Rest()) == Tokens(old(Rest()))[1..]
    {
      hide Tokens;
      var s := save;
      while buf[s] == '.'
        invariant save <= s <= end
        invariant forall j :: save <= j < s ==> buf[j] == '.'
        decreases end - s
      {
        s := s + 1;
      }
      ghost var was := buf[..];
      assert was[save..end] == Rest();
      if buf[s] == NUL {
        OnlyDots(was, save, end);
        save := s;
        return NoToken;
      }
      var e := s;
      while buf[e] != NUL && buf[e] != '.'
        invariant s <= e <= end
        invariant forall j :: s <= j < e ==> buf[j] != '.' && buf[j] != NUL
        decreases end - e
      {
        e := e + 1;
      }
      TokenFound(was, save, s, e, end);
      AfterToken(was, e, end);
      TokenClosed(was, s, e);
      if buf[e] == NUL {
        assert was[e := NUL] == was;
        save := e;
      } else {
        buf[e] := NUL;
        save := e + 1;
      }
      assert buf[..] == was[e := NUL];
      assert Rest() == buf[..][save..end];
      token := At(s);
    }
  }

  /** What strlen says of a token. */
  lemma TokenString(b: seq<char>, start: nat, text: string)
    requires TokenAt(b, start, text)
    ensures NUL in b[start..] && CString(b[start..]) == text
  {
    var s, n := b[start..], |text|;
    assert s[..n] == text && s[n] == NUL;
    assert forall j :: 0 <= j < n ==> s[j] == text[j] && text[j] in text;
    IndexOfUnique(s, NUL, n);
  }

  method TokenLength(buf: array<char>, start: nat, ghost text: string) returns (n: nat)
    requires TokenAt(buf[..], start, text)
    ensures n == |text|
  {
    TokenString(buf[..], start, text);
    assert buf[..][start..] == buf[start..];
    n := Strlen(buf, start);
  }

  /** The loops over isdigit. */
  method DigitsOnly(buf: array<char>, start: nat, ghost text: string) returns (ok: bool)
    requires TokenAt(buf[..], start, text)
    ensures ok <==> AllDigits(text)
  {
    var i := start;
    while buf[i] != NUL
      invariant start <= i <= start + |text|
      invariant forall j :: 0 <= j < i - start ==> IsDigit(text[j])
      decreases start + |text| - i
    {
      assert buf[i] == buf[..][start..start + |text|][i - start] == text[i - start];
      if !IsDigit(buf[i]) {
        assert text[i - start] in text;
        return false;
      }
      i := i + 1;
    }
    return true;
  }

  /** The checks of both validators on a non-empty string. */
  method DotsChecked(s: string) returns (ok: bool)
    requires s != ""
    ensures ok <==> DotsFit(s)
  {
    if s[0] == '.' || s[|s| - 1] == '.' {
      return false;
    }
    for i := 0 to |s| - 1
      invariant forall j :: 0 <= j < i ==> !(s[j] == '.' && s[j + 1] == '.')
    {
      if s[i] == '.' && s[i + 1] == '.' {
        return false;
      }
    }
    return true;
  }

  /** is_number_or_dot */
  method IsNumberOrDot(s: string) returns (ok: bool)
    ensures ok <==> NumberOrDot(s)
  {
    for i := 0 to |s|
      invariant NumberOrDot(s[..i])
    {
      if !(IsDigit(s[i]) || s[i] == '.') {
        assert s[i] in s;
        return false;
      }
      assert s[..i + 1] == s[..i] + [s[i]];
    }
    assert s[..|s|] == s;
    return true;
  }

  /** is_valid_label */
  method IsValidLabel(buf: array<char>, start: nat, len: nat) returns (ok: bool)
    requires start + len <= buf.Length
    ensures ok <==> ValidLabel(buf[start..start + len])
  {
    if len == 0 || len > 63 {
      return false;
    }
    ghost var l := buf[start..start + len];
    assert l[0] == buf[start] && l[len - 1] == buf[start + len - 1];
    if buf[start] == '-' || buf[start + len - 1] == '-' {
      return false;
    }
    for i := 0 to len
      invariant forall j :: 0 <= j < i ==> IsAlnum(l[j]) || l[j] == '-'
    {
      assert l[i] == buf[start + i];
      if !IsAlnum(buf[start + i]) && buf[start + i] != '-' {
        assert l[i] in l;
        return false;
      }
    }
    return true;
  }

  /** The body of the loop in is_valid_ipv4. */
  method SegmentFits(buf: array<char>, start: nat, ghost seg: string) returns (ok: bool)
    requires TokenAt(buf[..], start, seg)
    ensures ok <==> AcceptedNumber(seg)
  {
    var n := TokenLength(buf, start, seg);
    if n == 0 {
      return false;
    }
    var digits := DigitsOnly(buf, start, seg);
    if !digits {
      return false;
    }
    assert buf[start..start + n] == seg;
    var num := Atoi(buf[start..start + n]);
    return !(num < 0 || num > 255);
  }

  /** is_valid_ipv4 */
  method IsValidIPv4(ip: string) returns (ok: bool)
    requires NUL !in ip
    ensures ok <==> AcceptedIPv4(ip)
  {
    if ip == "" || |ip| >= 17 {
      return false;
    }
    var dots := DotsChecked(ip);
    DotsFitIff(ip);
    if !dots {
      return false;
    }
    TokensAreSplit(ip);
    ok := FourAccepted(ip);
  }

  /** The loop over the tokens. */
  method FourAccepted(ip: string) returns (ok: bool)
    requires NUL !in ip && |ip| < 17
    ensures ok <==> |Tokens(ip)| == 4 && forall seg :: seg in Tokens(ip) ==> AcceptedNumber(seg)
  {
    hide Tokens, AcceptedNumber;
    var str := new Tokenizer(ip, 17);
    ghost var segs := Tokens(ip);
    var segments := 0;
    var ptr := str.Next();
    while ptr != NoToken
      invariant str.Valid() && fresh(str) && fresh(str.buf)
      invariant 0 <= segments <= |segs|
      invariant ptr == NoToken ==> segments == |segs|
      invariant ptr != NoToken ==>
                  && segments < |segs| && TokenAt(str.buf[..], ptr.start, segs[segments])
                  && Tokens(str.Rest()) == segs[segments + 1..]
      invariant forall k :: 0 <= k < segments ==> AcceptedNumber(segs[k])
      decreases |segs| - segments, ptr != NoToken
    {
      assert segs[segments] in segs;
      var fits := SegmentFits(str.buf, ptr.start, segs[segments]);
      if !fits {
        return false;
      }
      segments := segments + 1;
      ptr := str.Next();
    }
    return segments == 4;
  }

  /** is_valid_domain */
  method IsValidDomain(domain: string) returns (ok: bool)
    requires NUL !in domain
    ensures ok <==> ValidDomain(domain)
  {
    if domain == "" || |domain| > 253 {
      return false;
    }
    if IndexOf(domain, '.') == |domain| {
      return false;
    }
    var dots := DotsChecked(domain);
    DotsFitIff(domain);
    if !dots {
      return false;
    }
    TokensAreSplit(domain);
    ok := LabelsValid(domain);
  }

  /** The loop over the labels; `last` is the last one. */
  method ScanLabels(temp: Tokenizer) returns (ok: bool, count: nat, last: Token)
    requires temp.Valid()
    modifies temp`save, temp.buf
    ensures ok <==> forall k :: 0 <= k < |old(Tokens(temp.Rest()))| ==> ValidLabel(old(Tokens(temp.Rest()))[k])
    ensures ok ==> count == |old(Tokens(temp.Rest()))|
    ensures ok && count > 0 ==>
              last != NoToken && TokenAt(temp.buf[..], last.start, old(Tokens(temp.Rest()))[count - 1])
  {
    hide Tokens, ValidLabel;
    ghost var labels := Tokens(temp.Rest());
    count := 0;
    last := NoToken;
    var token := temp.Next();
    while token != NoToken
      invariant temp.Valid()
      invariant 0 <= count <= |labels|
      invariant token == NoToken ==> count == |labels|
      invariant token != NoToken ==>
                  && count < |labels| && TokenAt(temp.buf[..], token.start, labels[count])
                  && token.start + |labels[count]| <= temp.save
                  && Tokens(temp.Rest()) == labels[count + 1..]
      invariant count > 0 ==> last != NoToken && TokenAt(temp.buf[..], last.start, labels[count - 1])
      invariant forall k :: 0 <= k < count ==> ValidLabel(labels[k])
      decreases |labels| - count, token != NoToken
    {
      ghost var l := labels[count];
      var len := TokenLength(temp.buf, token.start, l);
      assert temp.buf[token.start..token.start + len] == l;
      ok := IsValidLabel(temp.buf, token.start, len);
      if !ok {
        return;
      }
      last := token;
      count := count + 1;
      ghost var was, save := temp.buf[..], temp.save;
      token := temp.Next();
      TokenStays(was, temp.buf[..], save, last.start, l);
    }
    ok := true;
  }

  /** The scan, and the checks on the last label. */
  method LabelsValid(domain: string) returns (ok: bool)
    requires NUL !in domain && |domain| <= 253
    ensures ok <==> ValidLabels(Tokens(domain))
  {
    hide Tokens, ValidLabel;
    var temp := new Tokenizer(domain, 256);
    ghost var labels := Tokens(domain);
    var count, last;
    ok, count, last := ScanLabels(temp);
    assert ok <==> forall l :: l in labels ==> ValidLabel(l);
    if !ok || count < 2 {
      return false;
    }
    var len := TokenLength(temp.buf, last.start, labels[count - 1]);
    if len < 2 {
      return false;
    }
    var digits := DigitsOnly(temp.buf, last.start, labels[count - 1]);
    return !digits;
  }

  datatype Kind = Address | BadAddress | Name | BadName

  /** What the server's loop takes a request for. The answer would be the same for any
      order of the three tests. */
  method Classify(request: string) returns (kind: Kind)
    requires NUL !in request
    ensures kind == Address <==> AcceptedIPv4(request)
    ensures kind == Name <==> ValidDomain(request)
    ensures kind == BadAddress <==> NumberOrDot(request) && !AcceptedIPv4(request)
  {
    AcceptedIsNumberOrDot(request);
    NumberOrDotIsNoDomain(request);
    var address := IsValidIPv4(request);
    if address {
      return Address;
    }
    var number := IsNumberOrDot(request);
    if number {
      return BadAddress;
    }
    var name := IsValidDomain(request);
    return if name then Name else BadName;
  }
}
