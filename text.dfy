/** The JavaScript string primitives the services and DTOs rely on: `String.prototype.trim`,
    `toUpperCase` (ASCII letters only) and the character classes used by their regular expressions. */
module Text {

  /** ECMAScript WhiteSpace and LineTerminator code points: what `trim` removes and what `\s`
      matches in a regular expression. */
  predicate IsSpace(c: char)
  {
    var n := c as int;
    || 0x09 <= n <= 0x0D
    || n == 0x20 || n == 0xA0 || n == 0x1680
    || 0x2000 <= n <= 0x200A
    || n == 0x2028 || n == 0x2029 || n == 0x202F || n == 0x205F || n == 0x3000
    || n == 0xFEFF
  }

  predicate IsDigit(c: char)
  {
    '0' <= c <= '9'
  }

  /** `[A-Za-z]` */
  predicate IsAsciiLetter(c: char)
  {
    ('A' <= c <= 'Z') || ('a' <= c <= 'z')
  }

  /** No whitespace at either end. */
  predicate IsTrimmed(s: string)
  {
    s == [] || (!IsSpace(s[0]) && !IsSpace(s[|s| - 1]))
  }

  /** `s.trim()`: whitespace is removed from the front, then from the back, until neither end
      is whitespace. */
  function Trim(s: string): (r: string)
    ensures IsTrimmed(r) && |r| <= |s|
    decreases |s|
  {
    if s != [] && IsSpace(s[0]) then Trim(s[1..])
    else if s != [] && IsSpace(s[|s| - 1]) then Trim(s[..|s| - 1])
    else s
  }

  /** How many whitespace characters `Trim` removes from the front of `s`. */
  function TrimOffset(s: string): (k: nat)
    ensures k <= |s|
  {
    if s != [] && IsSpace(s[0]) then 1 + TrimOffset(s[1..]) else 0
  }

  /** `Trim(s)` is the slice of `s` that starts at `TrimOffset(s)`, and only whitespace of `s`
      lies before and after it. */
  lemma {:induction false} TrimSlice(s: string)
    ensures TrimOffset(s) + |Trim(s)| <= |s|
    ensures Trim(s) == s[TrimOffset(s)..TrimOffset(s) + |Trim(s)|]
    ensures forall i :: 0 <= i < TrimOffset(s) ==> IsSpace(s[i])
    ensures forall i :: TrimOffset(s) + |Trim(s)| <= i < |s| ==> IsSpace(s[i])
    decreases |s|, 1
  {
    if s != [] && IsSpace(s[0]) {
      TrimSliceFront(s);
    } else if s != [] && IsSpace(s[|s| - 1]) {
      TrimSliceBack(s);
    }
  }

  lemma {:induction false} TrimSliceFront(s: string)
    requires s != [] && IsSpace(s[0])
    ensures TrimOffset(s) + |Trim(s)| <= |s|
    ensures Trim(s) == s[TrimOffset(s)..TrimOffset(s) + |Trim(s)|]
    ensures forall i :: 0 <= i < TrimOffset(s) ==> IsSpace(s[i])
    ensures forall i :: TrimOffset(s) + |Trim(s)| <= i < |s| ==> IsSpace(s[i])
    decreases |s|, 0
  {
    var t := s[1..];
    TrimSlice(t);
    var k, r := TrimOffset(t), Trim(t);
    assert TrimOffset(s) == k + 1 && Trim(s) == r;
    assert t[k..k + |r|] == s[k + 1..k + 1 + |r|];
    assert forall i :: 0 < i < |s| ==> s[i] == t[i - 1];
  }

  lemma {:induction false} TrimSliceBack(s: string)
    requires s != [] && !IsSpace(s[0]) && IsSpace(s[|s| - 1])
    ensures TrimOffset(s) == 0 && |Trim(s)| <= |s| && Trim(s) == s[..|Trim(s)|]
    ensures forall i :: |Trim(s)| <= i < |s| ==> IsSpace(s[i])
    decreases |s|, 0
  {
    var t := s[..|s| - 1];
    TrimSlice(t);
    forall i | |Trim(t)| <= i < |s| ensures IsSpace(s[i]) {
      if i < |s| - 1 { assert s[i] == t[i]; }
    }
  }

  /** Trimming a string without surrounding whitespace changes nothing. */
  lemma TrimOfTrimmed(s: string)
    requires IsTrimmed(s)
    ensures Trim(s) == s
  {
  }

  lemma TrimIdempotent(s: string)
    ensures Trim(Trim(s)) == Trim(s)
  {
    TrimOfTrimmed(Trim(s));
  }

  /** A string made only of whitespace trims to the empty string, and conversely. */
  lemma TrimEmptyIffAllSpace(s: string)
    ensures Trim(s) == "" <==> forall i :: 0 <= i < |s| ==> IsSpace(s[i])
  {
    TrimSlice(s);
    if Trim(s) != "" {
      assert Trim(s)[0] == s[TrimOffset(s)];
    }
  }

  function UpperChar(c: char): (u: char)
  {
    if 'a' <= c <= 'z' then (c as int - 32) as char else c
  }

  /** `s.toUpperCase()` restricted to the ASCII letters. */
  function ToUpper(s: string): (r: string)
    ensures |r| == |s|
    ensures forall i :: 0 <= i < |s| ==> r[i] == UpperChar(s[i])
  {
    seq(|s|, i requires 0 <= i < |s| => UpperChar(s[i]))
  }

  lemma ToUpperIdempotent(s: string)
    ensures ToUpper(ToUpper(s)) == ToUpper(s)
  {
  }

  /** Upper-casing neither creates nor removes whitespace, so it keeps a trimmed string trimmed. */
  lemma ToUpperKeepsTrimmed(s: string)
    requires IsTrimmed(s)
    ensures IsTrimmed(ToUpper(s))
  {
  }
}
