/** The parts of Python's `str` that the normalisers use: white space, `strip` and ASCII `lower`. */
module PythonText {

  /** `str.isspace` for one character. */
  predicate IsSpace(c: char) {
    var n := c as int;
    9 <= n <= 13 || 28 <= n <= 32 || n == 0x85 || n == 0xA0 || n == 0x1680 || 0x2000 <= n <= 0x200A
    || n == 0x2028 || n == 0x2029 || n == 0x202F || n == 0x205F || n == 0x3000
  }

  function StripLeft(s: string): string {
    if s != [] && IsSpace(s[0]) then StripLeft(s[1..]) else s
  }

  function StripRight(s: string): string {
    if s != [] && IsSpace(s[|s| - 1]) then StripRight(s[..|s| - 1]) else s
  }

  /** `s.strip()`. */
  function Strip(s: string): string {
    StripRight(StripLeft(s))
  }

  /** No white space at either end. */
  predicate Trim(s: string) {
    s != [] ==> !IsSpace(s[0]) && !IsSpace(s[|s| - 1])
  }

  lemma {:induction false} StripRightTrims(s: string)
    ensures var r := StripRight(s); (r != [] ==> !IsSpace(r[|r| - 1]) && r[0] == s[0]) && |r| <= |s|
    ensures StripRight(s) == [] ==> forall i :: 0 <= i < |s| ==> IsSpace(s[i])
    decreases |s|
  {
    if s != [] && IsSpace(s[|s| - 1]) {
      StripRightTrims(s[..|s| - 1]);
    }
  }

  lemma {:induction false} StripLeftTrims(s: string)
    ensures var r := StripLeft(s); (r != [] ==> !IsSpace(r[0])) && |r| <= |s|
    decreases |s|
  {
    if s != [] && IsSpace(s[0]) {
      StripLeftTrims(s[1..]);
    }
  }

  /** Stripping leaves a trim string, and exactly the trim strings are left alone. */
  lemma StripTrims(s: string)
    ensures Trim(Strip(s))
    ensures Strip(s) == s <==> Trim(s)
  {
    StripLeftTrims(s);
    StripRightTrims(StripLeft(s));
  }

  predicate IsAscii(s: string) {
    forall i :: 0 <= i < |s| ==> s[i] as int < 128
  }

  function LowerChar(c: char): char {
    if 'A' <= c <= 'Z' then c - 'A' + 'a' else c
  }

  /** `s.lower()` of an ASCII string. */
  function Lower(s: string): (r: string)
    ensures |r| == |s|
    ensures forall i :: 0 <= i < |s| ==> r[i] == LowerChar(s[i])
  {
    seq(|s|, i requires 0 <= i < |s| => LowerChar(s[i]))
  }

  lemma LowerTwice(s: string)
    ensures Lower(Lower(s)) == Lower(s)
    ensures IsAscii(s) ==> IsAscii(Lower(s))
    ensures Trim(Lower(s)) <==> Trim(s)
  {
    forall i | 0 <= i < |s| ensures LowerChar(LowerChar(s[i])) == LowerChar(s[i]) {
    }
    assert forall c: char :: IsSpace(LowerChar(c)) <==> IsSpace(c);
  }
}
