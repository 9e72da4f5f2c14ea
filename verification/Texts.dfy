/** Trimming and splitting of text, as the standard library does them. */
module Texts {
  import opened Types

  /** The Unicode `White_Space` characters, as `str::trim` uses. */
  predicate IsWhite(c: char) {
    var n := c as int;
    9 <= n <= 13 || n == 32 || n == 0x85 || n == 0xA0 || n == 0x1680 || 0x2000 <= n <= 0x200A
    || n == 0x2028 || n == 0x2029 || n == 0x202F || n == 0x205F || n == 0x3000
  }

  function TrimStart(s: string): string {
    if s != [] && IsWhite(s[0]) then TrimStart(s[1..]) else s
  }

  function TrimEnd(s: string): string {
    if s != [] && IsWhite(s[|s| - 1]) then TrimEnd(s[..|s| - 1]) else s
  }

  function Trim(s: string): string {
    TrimEnd(TrimStart(s))
  }

  /** Split at the first occurrence. */
  function SplitOnce(s: string, c: char): Option<(string, string)> {
    if s == [] then None
    else if s[0] == c then Some(([], s[1..]))
    else
      var r := SplitOnce(s[1..], c);
      if r.None? then None else Some(([s[0]] + r.value.0, r.value.1))
  }

  ghost predicate AllWhite(s: string) {
    forall i :: 0 <= i < |s| ==> IsWhite(s[i])
  }

  /** Text that neither starts nor ends with white space. */
  ghost predicate Tight(s: string) {
    s != [] && !IsWhite(s[0]) && !IsWhite(s[|s| - 1])
  }

  lemma {:induction false} TrimStartWhite(a: string, s: string)
    requires AllWhite(a) && s != [] && !IsWhite(s[0])
    ensures TrimStart(a + s) == s
    decreases |a|
  {
    if a == [] {
      assert a + s == s;
    } else {
      TrimStartWhite(a[1..], s);
      assert (a + s)[1..] == a[1..] + s;
    }
  }

  lemma {:induction false} TrimEndWhite(s: string, b: string)
    requires AllWhite(b) && s != [] && !IsWhite(s[|s| - 1])
    ensures TrimEnd(s + b) == s
    decreases |b|
  {
    if b == [] {
      assert s + b == s;
    } else {
      TrimEndWhite(s, b[..|b| - 1]);
      assert (s + b)[..|s + b| - 1] == s + b[..|b| - 1];
    }
  }

  lemma TrimPadded(a: string, s: string, b: string)
    requires AllWhite(a) && AllWhite(b) && Tight(s)
    ensures Trim(a + s + b) == s
  {
    assert a + s + b == a + (s + b);
    TrimStartWhite(a, s + b);
    TrimEndWhite(s, b);
  }

  lemma {:induction false} SplitAt(a: string, c: char, b: string)
    requires c !in a
    ensures SplitOnce(a + [c] + b, c) == Some((a, b))
    decreases |a|
  {
    var s := a + [c] + b;
    if a == [] {
      assert s == [c] + b && s[1..] == b;
    } else {
      SplitAt(a[1..], c, b);
      assert s[1..] == a[1..] + [c] + b;
      assert a == [a[0]] + a[1..];
    }
  }

  lemma {:induction false} TrimStartParts(s: string) returns (a: string)
    ensures AllWhite(a) && s == a + TrimStart(s)
  {
    if s != [] && IsWhite(s[0]) {
      var r := TrimStartParts(s[1..]);
      a := [s[0]] + r;
      assert s == [s[0]] + s[1..];
    } else {
      a := [];
    }
  }

  lemma {:induction false} TrimEndParts(s: string) returns (b: string)
    ensures AllWhite(b) && s == TrimEnd(s) + b
    decreases |s|
  {
    if s != [] && IsWhite(s[|s| - 1]) {
      var r := TrimEndParts(s[..|s| - 1]);
      b := r + [s[|s| - 1]];
      assert s == s[..|s| - 1] + [s[|s| - 1]];
    } else {
      b := [];
    }
  }

  lemma TrimParts(s: string) returns (a: string, b: string)
    ensures AllWhite(a) && AllWhite(b) && s == a + Trim(s) + b
  {
    a := TrimStartParts(s);
    b := TrimEndParts(TrimStart(s));
  }

  lemma {:induction false} SplitParts(s: string, c: char)
    ensures SplitOnce(s, c).Some? ==>
              var (a, b) := SplitOnce(s, c).value; s == a + [c] + b && c !in a
    ensures SplitOnce(s, c).None? ==> c !in s
  {
    if s != [] {
      SplitParts(s[1..], c);
      assert s == [s[0]] + s[1..];
    }
  }

  /** White space goes beyond ASCII, and stops short of the zero-width space. */
  lemma WhiteSpaces()
    ensures AllWhite(" \t\n\U{000B}\U{000C}\r\U{0085}\U{00A0}\U{1680}\U{2003}\U{2028}\U{2029}\U{202F}\U{205F}\U{3000}")
    ensures !IsWhite('\U{200B}') && !IsWhite('\U{FEFF}') && !IsWhite('-') && !IsWhite('0')
  {
  }
}
