/** The parts of <ctype.h>, <string.h> and scanf that the programs use, on
    NUL-free character sequences. */
module CStrings {

  const NUL: char := '\0'

  /** isspace in the C locale. */
  predicate IsSpace(c: char): (b: bool)
    ensures b <==> c == ' ' || 9 <= c as int <= 13
  {
    c in {' ', '\t', '\n', '\U{0B}', '\U{0C}', '\r'}
  }

  predicate IsDigit(c: char): (b: bool)
    ensures b <==> 48 <= c as int <= 57
  {
    '0' <= c <= '9'
  }

  predicate IsAlnum(c: char): (b: bool)
    ensures b <==> IsDigit(c) || 65 <= c as int <= 90 || 97 <= c as int <= 122
  {
    IsDigit(c) || 'a' <= c <= 'z' || 'A' <= c <= 'Z'
  }

  predicate NoSpace(s: string) {
    forall c :: c in s ==> !IsSpace(c)
  }

  /** The first index of `c` in `s`, `|s|` when there is none. */
  function IndexOf(s: string, c: char): (k: nat)
    ensures k <= |s|
    ensures k < |s| ==> s[k] == c
    ensures forall j :: 0 <= j < k ==> s[j] != c
  {
    if s == [] || s[0] == c then 0 else 1 + IndexOf(s[1..], c)
  }

  /** The C string at the start of a buffer. */
  function CString(s: string): string {
    s[..IndexOf(s, NUL)]
  }

  lemma IndexOfUnique(s: string, c: char, k: nat)
    requires k <= |s| && (k < |s| ==> s[k] == c)
    requires forall j :: 0 <= j < k ==> s[j] != c
    ensures IndexOf(s, c) == k
  {
  }

  /** White space in a scanf format, and the leading white space of %s and %lu. */
  function SkipSpaces(s: string): (r: string)
    ensures r != [] ==> !IsSpace(r[0])
    ensures |r| <= |s| && r == s[|s| - |r|..]
  {
    if s != [] && IsSpace(s[0]) then SkipSpaces(s[1..]) else s
  }

  /** What %<max>s matches at the start of `s`. */
  function Word(s: string, max: nat): (w: string)
    ensures w <= s && |w| <= max && NoSpace(w)
    ensures |w| < max && |w| < |s| ==> IsSpace(s[|w|])
  {
    if max == 0 || s == [] || IsSpace(s[0]) then [] else [s[0]] + Word(s[1..], max - 1)
  }

  lemma {:induction false} WordOfPrefix(w: string, rest: string, max: nat)
    requires NoSpace(w) && |w| <= max
    requires |w| == max || rest == [] || IsSpace(rest[0])
    ensures Word(w + rest, max) == w
  {
    if w == [] {
      assert w + rest == rest;
    } else {
      assert (w + rest)[1..] == w[1..] + rest;
      WordOfPrefix(w[1..], rest, max - 1);
    }
  }

  predicate AllSpaces(s: string) {
    forall c :: c in s ==> IsSpace(c)
  }

  lemma {:induction false} SkipLead(lead: string, s: string)
    requires AllSpaces(lead) && (s == [] || !IsSpace(s[0]))
    ensures SkipSpaces(lead + s) == s
  {
    if lead == [] {
      assert lead + s == s;
    } else {
      assert (lead + s)[1..] == lead[1..] + s;
      SkipLead(lead[1..], s);
    }
  }

  /** The white space that is skipped. */
  lemma {:induction false} SkippedIsSpace(s: string)
    ensures AllSpaces(s[..|s| - |SkipSpaces(s)|])
  {
    if s != [] && IsSpace(s[0]) {
      SkippedIsSpace(s[1..]);
      var n := |s| - |SkipSpaces(s)|;
      assert s[..n] == [s[0]] + s[1..][..n - 1];
    }
  }

  /** What follows does not matter once there is something that is not white space. */
  lemma SkipThenMore(s: string, more: string)
    requires SkipSpaces(s) != []
    ensures SkipSpaces(s + more) == SkipSpaces(s) + more
  {
    var t := SkipSpaces(s);
    var lead := SkippedPart(s);
    assert (t + more)[0] == t[0];
    hide SkipSpaces, AllSpaces, IsSpace;
    SkipLead(lead, t + more);
    ThreeParts(lead, t, more);
  }

  lemma SkippedPart(s: string) returns (lead: string)
    ensures s == lead + SkipSpaces(s) && AllSpaces(lead)
  {
    lead := s[..|s| - |SkipSpaces(s)|];
    SkippedIsSpace(s);
  }

  lemma ThreeParts(a: string, b: string, c: string)
    ensures (a + b) + c == a + (b + c)
  {
  }

  /** The first `max` characters of a longer word. */
  lemma {:induction false} WordOfLong(w: string, rest: string, max: nat)
    requires NoSpace(w) && |w| >= max
    ensures Word(w + rest, max) == w[..max]
  {
    if max > 0 {
      assert (w + rest)[1..] == w[1..] + rest;
      WordOfLong(w[1..], rest, max - 1);
    }
  }

  lemma SkipNoSpaces(s: string)
    requires s == [] || !IsSpace(s[0])
    ensures SkipSpaces(s) == s
  {
  }

  lemma SkipOneSpace(s: string)
    requires s == [] || !IsSpace(s[0])
    ensures SkipSpaces(" " + s) == s
  {
    assert (" " + s)[1..] == s;
    SkipNoSpaces(s);
  }
}
