/** The few Python `str` operations that nuldc/dump.py relies on.

    Whitespace is Python's own (`str.isspace`, which is also what `\s`
    matches in a `str` pattern) over the whole of Unicode. Letters, digits
    and case are ASCII only: Unicode case mapping and the Unicode meaning of
    `\w` are outside this model, and the members that need them say so by
    requiring ASCII input. */
module PyStrings {

  /** `c.isspace()`: the Unicode whitespace characters Python recognises. */
  predicate IsSpace(c: char)
  {
    var k := c as int;
    (9 <= k <= 13) || (28 <= k <= 32) || k == 0x85 || k == 0xA0 || k == 0x1680
    || (0x2000 <= k <= 0x200A) || k == 0x2028 || k == 0x2029 || k == 0x202F
    || k == 0x205F || k == 0x3000
  }

  predicate IsAscii(c: char)
  {
    c as int < 128
  }

  predicate IsAsciiString(s: string)
  {
    forall i :: 0 <= i < |s| ==> IsAscii(s[i])
  }

  predicate IsUpper(c: char)
  {
    'A' <= c <= 'Z'
  }

  predicate IsLower(c: char)
  {
    'a' <= c <= 'z'
  }

  predicate IsDigit(c: char)
  {
    '0' <= c <= '9'
  }

  /** An ASCII letter or digit. */
  predicate IsAlnum(c: char)
  {
    IsUpper(c) || IsLower(c) || IsDigit(c)
  }

  /** What `\w` matches among ASCII characters. */
  predicate IsWordChar(c: char)
  {
    IsAlnum(c) || c == '_'
  }

  /** `c.lower()` for an ASCII character. */
  function LowerChar(c: char): char
  {
    if IsUpper(c) then (c as int + 32) as char else c
  }

  /** `s.lower()` for an ASCII string. */
  function Lower(s: string): (r: string)
    requires IsAsciiString(s)
    ensures |r| == |s|
  {
    if s == [] then [] else [LowerChar(s[0])] + Lower(s[1..])
  }

  /** `lower` leaves no upper-case letter, keeps every character's being a
      letter or digit, and changes nothing but upper-case letters. */
  lemma LowerIsLower(s: string)
    requires IsAsciiString(s)
    ensures forall i :: 0 <= i < |s| ==> IsAscii(Lower(s)[i]) && !IsUpper(Lower(s)[i])
    ensures forall i :: 0 <= i < |s| ==> (IsAlnum(Lower(s)[i]) <==> IsAlnum(s[i]))
    ensures forall i :: 0 <= i < |s| ==> !IsUpper(s[i]) ==> Lower(s)[i] == s[i]
  {
    LowerAt(s);
  }

  lemma {:induction false} LowerAt(s: string)
    requires IsAsciiString(s)
    ensures forall i :: 0 <= i < |s| ==> Lower(s)[i] == LowerChar(s[i])
    decreases s
  {
    if s != [] {
      LowerAt(s[1..]);
    }
  }

  /** `s.lstrip()`: the suffix left after the leading whitespace. */
  function LStrip(s: string): (r: string)
    ensures |r| <= |s| && r == s[|s| - |r|..]
    ensures forall i :: 0 <= i < |s| - |r| ==> IsSpace(s[i])
    ensures r == [] || !IsSpace(r[0])
  {
    if |s| > 0 && IsSpace(s[0]) then LStrip(s[1..]) else s
  }

  /** `s.rstrip()`: the prefix left before the trailing whitespace. */
  function RStrip(s: string): (r: string)
    ensures |r| <= |s| && r == s[..|r|]
    ensures forall i :: |r| <= i < |s| ==> IsSpace(s[i])
    ensures r == [] || !IsSpace(r[|r| - 1])
  {
    if |s| > 0 && IsSpace(s[|s| - 1]) then RStrip(s[..|s| - 1]) else s
  }

  /** `s.strip()`. */
  function Strip(s: string): string
  {
    RStrip(LStrip(s))
  }

  /** `Strip` keeps a slice `s[a..b]` and removes whitespace only. */
  lemma StripIsSlice(s: string) returns (a: nat, b: nat)
    ensures a <= b <= |s| && Strip(s) == s[a..b]
    ensures forall i :: 0 <= i < a ==> IsSpace(s[i])
    ensures forall i :: b <= i < |s| ==> IsSpace(s[i])
    ensures Strip(s) == [] || (!IsSpace(Strip(s)[0]) && !IsSpace(Strip(s)[|Strip(s)| - 1]))
  {
    var l := LStrip(s);
    a := |s| - |l|;
    b := a + |RStrip(l)|;
    assert RStrip(l) == l[..b - a];
  }

  /** A string without whitespace at either end is its own `strip()`. */
  lemma StripUnchanged(s: string)
    requires s == [] || (!IsSpace(s[0]) && !IsSpace(s[|s| - 1]))
    ensures Strip(s) == s
  {
    assert LStrip(s) == s;
  }
}
