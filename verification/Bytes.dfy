/** Fixed-width integers and UTF-8 on byte strings. */
module Bytes {
  import opened Types

  type Byte = b: nat | b < 256

  // ---------- integers ----------

  function Pow256(w: nat): nat {
    if w == 0 then 1 else 256 * Pow256(w - 1)
  }

  /** The low `w` bytes of `n`, least significant first. */
  function LE(n: nat, w: nat): (s: seq<Byte>)
    ensures |s| == w
    decreases w
  {
    if w == 0 then [] else [n % 256] + LE(n / 256, w - 1)
  }

  function FromLE(s: seq<Byte>): nat {
    if s == [] then 0 else s[0] + 256 * FromLE(s[1..])
  }

  lemma {:induction false} FromLEOfLE(n: nat, w: nat)
    requires n < Pow256(w)
    ensures FromLE(LE(n, w)) == n
    decreases w
  {
    if w > 0 {
      FromLEOfLE(n / 256, w - 1);
      assert LE(n, w)[1..] == LE(n / 256, w - 1);
    }
  }

  lemma Widths()
    ensures Pow256(1) == 0x100 && Pow256(2) == 0x1_0000
    ensures Pow256(4) == 0x1_0000_0000 && Pow256(8) == 0x1_0000_0000_0000_0000
  {
    assert Pow256(3) == 0x100_0000;
    assert Pow256(5) == 0x100_0000_0000;
    assert Pow256(6) == 0x1_0000_0000_0000;
    assert Pow256(7) == 0x100_0000_0000_0000;
  }

  /** Read a little-endian integer of `w` bytes; what is left follows. */
  function TakeLE(s: seq<Byte>, w: nat): Option<(nat, seq<Byte>)> {
    if |s| < w then None else Some((FromLE(s[..w]), s[w..]))
  }

  lemma TakeOfLE(n: nat, w: nat, rest: seq<Byte>)
    requires n < Pow256(w)
    ensures TakeLE(LE(n, w) + rest, w) == Some((n, rest))
  {
    FromLEOfLE(n, w);
    assert (LE(n, w) + rest)[..w] == LE(n, w) && (LE(n, w) + rest)[w..] == rest;
  }

  /** A big-endian `u32`. */
  function BE32(n: nat): (s: seq<Byte>)
    ensures |s| == 4
  {
    [n / 0x100_0000 % 256, n / 0x1_0000 % 256, n / 256 % 256, n % 256]
  }

  function FromBE32(s: seq<Byte>): nat
    requires |s| == 4
  {
    s[0] as int * 0x100_0000 + s[1] as int * 0x1_0000 + s[2] as int * 256 + s[3] as int
  }

  lemma FromBE32OfBE32(n: nat)
    requires n < 0x1_0000_0000
    ensures FromBE32(BE32(n)) == n
  {
    var a := n / 256;
    var b := a / 256;
    assert n / 0x1_0000 == b && n / 0x100_0000 == b / 256;
    assert n == 256 * a + n % 256 && a == 256 * b + a % 256 && b == 256 * (b / 256) + b % 256;
  }

  // ---------- UTF-8 ----------

  /** The continuation byte that carries the six bits of `n` from `unit` upward. */
  function Tail(n: nat, unit: nat): Byte
    requires unit > 0
  {
    0x80 + n / unit % 64
  }

  function EncodeChar(c: char): (s: seq<Byte>)
    ensures 1 <= |s| <= 4
  {
    var n := c as int;
    if n < 0x80 then [n]
    else if n < 0x800 then [0xC0 + n / 64, Tail(n, 1)]
    else if n < 0x1_0000 then [0xE0 + n / 4096, Tail(n, 64), Tail(n, 1)]
    else [0xF0 + n / 0x4_0000, Tail(n, 4096), Tail(n, 64), Tail(n, 1)]
  }

  function Utf8(s: string): seq<Byte> {
    if s == [] then [] else EncodeChar(s[0]) + Utf8(s[1..])
  }

  predicate Continues(s: seq<Byte>, n: nat) {
    |s| > n && forall i :: 1 <= i <= n ==> 0x80 <= s[i] < 0xC0
  }

  predicate IsScalar(n: int) {
    0 <= n < 0xD800 || 0xE000 <= n < 0x11_0000
  }

  /** The number a lead byte (less its marker) and `n` continuation bytes stand for. */
  function Scalar(lead: int, s: seq<Byte>, n: nat): int
    requires n < |s|
  {
    if n == 0 then lead else Scalar(lead, s, n - 1) * 64 + (s[n] as int - 0x80)
  }

  function DecodeLong(s: seq<Byte>, lead: int, n: nat, least: nat): (r: Option<(char, nat)>)
    ensures r.Some? ==> r.value.1 == n + 1 <= |s|
  {
    if Continues(s, n) && Scalar(lead, s, n) >= least && IsScalar(Scalar(lead, s, n))
    then Some((Scalar(lead, s, n) as char, n + 1))
    else None
  }

  /** The first character: no overlong forms, no surrogates, nothing above U+10FFFF. */
  function DecodeChar(s: seq<Byte>): (r: Option<(char, nat)>)
    requires s != []
    ensures r.Some? ==> 1 <= r.value.1 <= |s|
  {
    var b := s[0] as int;
    if b < 0x80 then Some((b as char, 1))
    else if 0xC0 <= b < 0xE0 then DecodeLong(s, b - 0xC0, 1, 0x80)
    else if 0xE0 <= b < 0xF0 then DecodeLong(s, b - 0xE0, 2, 0x800)
    else if 0xF0 <= b < 0xF8 then DecodeLong(s, b - 0xF0, 3, 0x1_0000)
    else None
  }

  function FromUtf8(s: seq<Byte>): Option<string>
    decreases |s|
  {
    if s == [] then Some([])
    else
      var c := DecodeChar(s);
      if c.None? then None
      else
        var r := FromUtf8(s[c.value.1..]);
        if r.None? then None else Some([c.value.0] + r.value)
  }

  lemma ScalarTwo(n: nat, s: seq<Byte>)
    requires |s| >= 2 && s[1] == Tail(n, 1)
    ensures Scalar(n / 64, s, 1) == n
  {
    assert Scalar(n / 64, s, 0) == n / 64;
  }

  lemma ScalarThree(n: nat, s: seq<Byte>)
    requires |s| >= 3 && s[1] == Tail(n, 64) && s[2] == Tail(n, 1)
    ensures Scalar(n / 4096, s, 2) == n
  {
    ScalarTwo(n / 64, s);
    assert n / 64 / 64 == n / 4096;
  }

  lemma ScalarFour(n: nat, s: seq<Byte>)
    requires |s| >= 4 && s[1] == Tail(n, 4096) && s[2] == Tail(n, 64) && s[3] == Tail(n, 1)
    ensures Scalar(n / 0x4_0000, s, 3) == n
  {
    assert n / 64 / 64 == n / 4096;
    ScalarThree(n / 64, s);
    assert n / 64 / 4096 == n / 0x4_0000;
  }

  lemma DecodeOfEncode(c: char, rest: seq<Byte>)
    ensures DecodeChar(EncodeChar(c) + rest) == Some((c, |EncodeChar(c)|))
  {
    var n, e := c as int, EncodeChar(c);
    var s := e + rest;
    assert s[0] == e[0];
    if 0x80 <= n < 0x800 {
      assert s[1] == e[1];
      ScalarTwo(n, s);
    } else if 0x800 <= n < 0x1_0000 {
      assert s[1] == e[1] && s[2] == e[2];
      ScalarThree(n, s);
    } else if n >= 0x1_0000 {
      assert s[1] == e[1] && s[2] == e[2] && s[3] == e[3];
      ScalarFour(n, s);
    }
  }

  /** One character off the front. */
  lemma FromUtf8Cons(e: seq<Byte>, c: char, rest: seq<Byte>)
    requires e != [] && DecodeChar(e + rest) == Some((c, |e|))
    ensures FromUtf8(e + rest) == if FromUtf8(rest).None? then None else Some([c] + FromUtf8(rest).value)
  {
    assert (e + rest)[|e|..] == rest;
  }

  lemma {:induction false} FromUtf8OfUtf8(s: string)
    ensures FromUtf8(Utf8(s)) == Some(s)
  {
    if s != [] {
      FromUtf8OfUtf8(s[1..]);
      DecodeOfEncode(s[0], Utf8(s[1..]));
      FromUtf8Cons(EncodeChar(s[0]), s[0], Utf8(s[1..]));
      assert s == [s[0]] + s[1..];
    }
  }

  lemma UnscalarTwo(lead: nat, s: seq<Byte>)
    requires Continues(s, 1)
    ensures var n := Scalar(lead, s, 1); n >= 0 && n / 64 == lead && Tail(n, 1) == s[1]
  {
    assert Scalar(lead, s, 0) == lead;
  }

  lemma UnscalarThree(lead: nat, s: seq<Byte>)
    requires Continues(s, 2)
    ensures var n := Scalar(lead, s, 2); n >= 0 && n / 4096 == lead && Tail(n, 64) == s[1] && Tail(n, 1) == s[2]
  {
    UnscalarTwo(lead, s);
    var n := Scalar(lead, s, 2);
    assert n / 64 == Scalar(lead, s, 1) && n / 64 / 64 == n / 4096;
  }

  lemma UnscalarFour(lead: nat, s: seq<Byte>)
    requires Continues(s, 3)
    ensures var n := Scalar(lead, s, 3);
            n >= 0 && n / 0x4_0000 == lead && Tail(n, 4096) == s[1] && Tail(n, 64) == s[2] && Tail(n, 1) == s[3]
  {
    UnscalarThree(lead, s);
    var n := Scalar(lead, s, 3);
    assert n / 64 == Scalar(lead, s, 2) && n / 64 / 64 == n / 4096 && n / 64 / 4096 == n / 0x4_0000;
  }

  /** The decoder is strict: what it accepts is the encoding of what it returns. */
  lemma EncodeOfDecode(s: seq<Byte>)
    requires s != [] && DecodeChar(s).Some?
    ensures var (c, n) := DecodeChar(s).value; EncodeChar(c) == s[..n]
  {
    var (c, k) := DecodeChar(s).value;
    var b: int := s[0];
    if k == 2 {
      UnscalarTwo(b - 0xC0, s);
    } else if k == 3 {
      UnscalarThree(b - 0xE0, s);
    } else if k == 4 {
      UnscalarFour(b - 0xF0, s);
    }
  }

  lemma Utf8Cons(c: char, t: string)
    ensures Utf8([c] + t) == EncodeChar(c) + Utf8(t)
  {
    assert ([c] + t)[1..] == t;
  }

  lemma {:induction false} Utf8OfFromUtf8(s: seq<Byte>)
    ensures FromUtf8(s).Some? ==> Utf8(FromUtf8(s).value) == s
    decreases |s|
  {
    if s != [] && DecodeChar(s).Some? {
      var (c, n) := DecodeChar(s).value;
      var e, rest := s[..n], s[n..];
      assert s == e + rest;
      EncodeOfDecode(s);
      FromUtf8Cons(e, c, rest);
      Utf8OfFromUtf8(rest);
      if FromUtf8(rest).Some? {
        Utf8Cons(c, FromUtf8(rest).value);
      }
    }
  }

  // ---------- the order of strings ----------

  /** Rust's order of strings: lexicographic on their UTF-8 bytes. */
  predicate BytesLeq(a: seq<Byte>, b: seq<Byte>) {
    a == [] || (b != [] && (a[0] < b[0] || (a[0] == b[0] && BytesLeq(a[1..], b[1..]))))
  }

  lemma {:induction false} BytesLeqSkip(p: seq<Byte>, a: seq<Byte>, b: seq<Byte>)
    ensures BytesLeq(p + a, p + b) <==> BytesLeq(a, b)
  {
    if p == [] {
      assert p + a == a && p + b == b;
    } else {
      assert (p + a)[1..] == p[1..] + a && (p + b)[1..] == p[1..] + b;
      BytesLeqSkip(p[1..], a, b);
    }
  }

  /** `a` and `b` first differ at `i`, where `a` is smaller. */
  ghost predicate DifferAt(a: seq<Byte>, b: seq<Byte>, i: nat) {
    i < |a| && i < |b| && a[i] < b[i] && forall j :: 0 <= j < i ==> a[j] == b[j]
  }

  /** Byte strings are ordered by their bytes where they first differ. */
  lemma {:induction false} BytesDifferAt(a: seq<Byte>, b: seq<Byte>, i: nat)
    requires DifferAt(a, b, i)
    ensures BytesLeq(a, b) && !BytesLeq(b, a)
  {
    if i > 0 {
      BytesDifferAt(a[1..], b[1..], i - 1);
    }
  }

  /** Of two numbers the smaller has the smaller leading part, or the same one and the smaller last six bits. */
  lemma SixBits(m: nat, n: nat)
    requires m < n
    ensures m / 64 < n / 64 || (m / 64 == n / 64 && m % 64 < n % 64)
  {
  }

  /** A smaller character has no longer encoding, and if shorter a smaller lead byte. */
  lemma LeadByte(c: char, d: char)
    requires c < d && |EncodeChar(c)| != |EncodeChar(d)|
    ensures EncodeChar(c)[0] < EncodeChar(d)[0]
  {
  }

  lemma ThreeBytesDiffer(c: char, d: char) returns (i: nat)
    requires c < d && |EncodeChar(c)| == |EncodeChar(d)| == 3
    ensures DifferAt(EncodeChar(c), EncodeChar(d), i)
  {
    var m: nat, n: nat := c as int, d as int;
    assert m / 4096 == m / 64 / 64 && n / 4096 == n / 64 / 64;
    SixBits(m, n);
    i := 2;
    if m / 64 < n / 64 {
      SixBits(m / 64, n / 64);
      i := if m / 4096 < n / 4096 then 0 else 1;
    }
  }

  lemma FourBytesDiffer(c: char, d: char) returns (i: nat)
    requires c < d && |EncodeChar(c)| == |EncodeChar(d)| == 4
    ensures DifferAt(EncodeChar(c), EncodeChar(d), i)
  {
    var m: nat, n: nat := c as int, d as int;
    assert m / 4096 == m / 64 / 64 && n / 4096 == n / 64 / 64;
    assert m / 0x4_0000 == m / 4096 / 64 && n / 0x4_0000 == n / 4096 / 64;
    SixBits(m, n);
    i := 3;
    if m / 64 < n / 64 {
      SixBits(m / 64, n / 64);
      i := 2;
      if m / 4096 < n / 4096 {
        SixBits(m / 4096, n / 4096);
        i := if m / 0x4_0000 < n / 0x4_0000 then 0 else 1;
      }
    }
  }

  /** The position at which the encoding of a smaller character is first smaller. */
  lemma CharsDifferAt(c: char, d: char) returns (i: nat)
    requires c < d
    ensures DifferAt(EncodeChar(c), EncodeChar(d), i)
  {
    if |EncodeChar(c)| != |EncodeChar(d)| {
      LeadByte(c, d);
      i := 0;
    } else if |EncodeChar(c)| == 3 {
      i := ThreeBytesDiffer(c, d);
    } else if |EncodeChar(c)| == 4 {
      i := FourBytesDiffer(c, d);
    } else {
      SixBits(c as int, d as int);
      i := if EncodeChar(c)[0] < EncodeChar(d)[0] then 0 else 1;
    }
  }

  /** Ordering strings by code point is ordering their UTF-8 bytes. */
  lemma {:induction false} StringOrderIsByteOrder(a: string, b: string)
    ensures StringLeq(a, b) <==> BytesLeq(Utf8(a), Utf8(b))
  {
    if a != [] && b != [] {
      if a[0] == b[0] {
        StringOrderIsByteOrder(a[1..], b[1..]);
        BytesLeqSkip(EncodeChar(a[0]), Utf8(a[1..]), Utf8(b[1..]));
      } else if a[0] < b[0] {
        var i := CharsDifferAt(a[0], b[0]);
        BytesDifferAt(Utf8(a), Utf8(b), i);
      } else {
        var i := CharsDifferAt(b[0], a[0]);
        BytesDifferAt(Utf8(b), Utf8(a), i);
      }
    }
  }
}
