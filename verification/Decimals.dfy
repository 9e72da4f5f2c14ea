/** Decimal numbers: Rust's `u16` display and parser. */
module Decimals {
  import opened Types

  predicate IsDigit(c: char) {
    '0' <= c <= '9'
  }

  function Digit(c: char): nat
    requires IsDigit(c)
  {
    c as int - '0' as int
  }

  ghost predicate AllDigits(s: string) {
    forall i :: 0 <= i < |s| ==> IsDigit(s[i])
  }

  function Decimal(n: nat): (s: string)
    ensures s != [] && AllDigits(s)
  {
    var d := [('0' as int + n % 10) as char];
    if n < 10 then d else Decimal(n / 10) + d
  }

  /** The number a digit string denotes. */
  ghost function Value(s: string): nat
    requires AllDigits(s)
    decreases |s|
  {
    if s == [] then 0 else 10 * Value(s[..|s| - 1]) + Digit(s[|s| - 1])
  }

  lemma {:induction false} ValueOfDecimal(n: nat)
    ensures Value(Decimal(n)) == n
  {
    var d := [('0' as int + n % 10) as char];
    if n >= 10 {
      ValueOfDecimal(n / 10);
      assert (Decimal(n / 10) + d)[..|Decimal(n / 10) + d| - 1] == Decimal(n / 10);
    } else {
      assert d[..0] == [];
    }
  }

  /** The parser's loop: multiply, add, and stop on a bad digit or on overflow. */
  function ParseDigits(s: string, acc: Port): Option<Port>
    decreases |s|
  {
    if s == [] then Some(acc)
    else if !IsDigit(s[0]) then None
    else
      var v := acc * 10 + Digit(s[0]);
      if v > 65535 then None else ParseDigits(s[1..], v)
  }

  /** `str::parse::<u16>`: an optional plus sign, then at least one digit. */
  function ParseU16(s: string): Option<Port> {
    if s == [] || s == "+" then None
    else if s[0] == '+' then ParseDigits(s[1..], 0)
    else ParseDigits(s, 0)
  }

  lemma {:induction false} ParseDigitsExact(done: string, s: string)
    requires AllDigits(done) && Value(done) < 65536
    ensures var r := ParseDigits(s, Value(done));
            && (r.Some? <==> AllDigits(s) && Value(done + s) < 65536)
            && (r.Some? ==> r.value == Value(done + s))
    decreases |s|
  {
    if s == [] {
      assert done + s == done;
    } else if IsDigit(s[0]) {
      var done' := done + [s[0]];
      OneDigitMore(done, s);
      if Value(done') < 65536 {
        ParseDigitsExact(done', s[1..]);
      } else if AllDigits(s) {
        ValueGrows(done', s[1..]);
      }
    }
  }

  lemma OneDigitMore(done: string, s: string)
    requires AllDigits(done) && s != [] && IsDigit(s[0])
    ensures AllDigits(s) <==> AllDigits(s[1..])
    ensures done + [s[0]] + s[1..] == done + s && Value(done + [s[0]]) == 10 * Value(done) + Digit(s[0])
  {
    assert s == [s[0]] + s[1..];
    assert (done + [s[0]])[..|done|] == done;
  }

  lemma {:induction false} ValueGrows(a: string, b: string)
    requires AllDigits(a) && AllDigits(b)
    ensures Value(a + b) >= Value(a)
    decreases |b|
  {
    if b == [] {
      assert a + b == a;
    } else {
      ValueGrows(a, b[..|b| - 1]);
      assert (a + b)[..|a + b| - 1] == a + b[..|b| - 1];
    }
  }

  function Unsigned(s: string): string {
    if s != [] && s[0] == '+' then s[1..] else s
  }

  /** The parser accepts exactly an optional plus sign before digits that denote a `u16`, and returns that number. */
  lemma ParseU16Exact(s: string)
    ensures ParseU16(s).Some? <==> Unsigned(s) != [] && AllDigits(Unsigned(s)) && Value(Unsigned(s)) < 65536
    ensures ParseU16(s).Some? ==> ParseU16(s).value == Value(Unsigned(s))
  {
    ParseDigitsExact([], Unsigned(s));
    assert [] + Unsigned(s) == Unsigned(s);
  }

  lemma ParseDecimal(n: Port)
    ensures ParseU16(Decimal(n)) == Some(n)
  {
    ParseU16Exact(Decimal(n));
    ValueOfDecimal(n);
  }
}
