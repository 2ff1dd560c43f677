/** UTF-8 (section 3 of RFC 3629). A Dafny character is a Unicode scalar value, so a
    string here is a Python string without lone surrogates. */
module Utf8 {
  import opened Wrappers

  type Byte = b: int | 0 <= b < 256

  function EncodeChar(c: char): (bs: seq<Byte>)
    ensures 1 <= |bs| <= 4
  {
    var n := c as int;
    if n < 0x80 then [n]
    else if n < 0x800 then [0xC0 + n / 64, 0x80 + n % 64]
    else if n < 0x10000 then [0xE0 + n / 4096, 0x80 + n / 64 % 64, 0x80 + n % 64]
    else [0xF0 + n / 262144, 0x80 + n / 4096 % 64, 0x80 + n / 64 % 64, 0x80 + n % 64]
  }

  function Encode(s: string): seq<Byte> {
    if s == "" then [] else EncodeChar(s[0]) + Encode(s[1..])
  }

  predicate Tail(b: Byte) { 0x80 <= b < 0xC0 }

  predicate Scalar(n: int) { 0 <= n < 0xD800 || 0xE000 <= n < 0x110000 }

  function Two(a: int, b: int): int { a * 64 + b }

  function Three(a: int, b: int, c: int): int { a * 4096 + b * 64 + c }

  function Four(a: int, b: int, c: int, d: int): int { a * 262144 + b * 4096 + c * 64 + d }

  /** The first character and the number of bytes it takes; shortest forms only, no
      surrogates, nothing above U+10FFFF. */
  function DecodeChar(bs: seq<Byte>): (r: Option<(char, nat)>)
    ensures r.Some? ==> 1 <= r.value.1 <= |bs|
  {
    if bs == [] then None
    else if bs[0] < 0x80 then Some((bs[0] as char, 1))
    else if 0xC2 <= bs[0] < 0xE0 && |bs| >= 2 && Tail(bs[1]) then
      Some((Two(bs[0] - 0xC0, bs[1] - 0x80) as char, 2))
    else if 0xE0 <= bs[0] < 0xF0 && |bs| >= 3 && Tail(bs[1]) && Tail(bs[2]) then
      var n := Three(bs[0] - 0xE0, bs[1] - 0x80, bs[2] - 0x80);
      if n >= 0x800 && Scalar(n) then Some((n as char, 3)) else None
    else if 0xF0 <= bs[0] < 0xF5 && |bs| >= 4 && Tail(bs[1]) && Tail(bs[2]) && Tail(bs[3]) then
      var n := Four(bs[0] - 0xF0, bs[1] - 0x80, bs[2] - 0x80, bs[3] - 0x80);
      if n >= 0x10000 && Scalar(n) then Some((n as char, 4)) else None
    else None
  }

  function Decode(bs: seq<Byte>): Option<string>
    decreases |bs|
  {
    if bs == [] then Some("")
    else
      match DecodeChar(bs)
      case None => None
      case Some(p) =>
        match Decode(bs[p.1..])
        case None => None
        case Some(rest) => Some([p.0] + rest)
  }

  lemma Regroup(n: int)
    requires 0 <= n < 0x110000
    ensures Two(n / 64, n % 64) == n
    ensures Three(n / 4096, n / 64 % 64, n % 64) == n
    ensures Four(n / 262144, n / 4096 % 64, n / 64 % 64, n % 64) == n
  {
    assert n / 4096 == n / 64 / 64 && n / 262144 == n / 4096 / 64;
  }

  lemma FourByteRoundTrip(c: char, rest: seq<Byte>)
    requires 0x10000 <= c as int
    ensures DecodeChar(EncodeChar(c) + rest) == Some((c, 4))
  {
    var bs, e := EncodeChar(c) + rest, EncodeChar(c);
    assert bs[0] == e[0] && bs[1] == e[1] && bs[2] == e[2] && bs[3] == e[3];
    Regroup(c as int);
  }

  lemma ThreeByteRoundTrip(c: char, rest: seq<Byte>)
    requires 0x800 <= c as int < 0x10000
    ensures DecodeChar(EncodeChar(c) + rest) == Some((c, 3))
  {
    var bs, e := EncodeChar(c) + rest, EncodeChar(c);
    assert bs[0] == e[0] && bs[1] == e[1] && bs[2] == e[2];
    Regroup(c as int);
  }

  lemma CharRoundTrip(c: char, rest: seq<Byte>)
    ensures DecodeChar(EncodeChar(c) + rest) == Some((c, |EncodeChar(c)|))
  {
    var bs := EncodeChar(c) + rest;
    if 0x10000 <= c as int {
      FourByteRoundTrip(c, rest);
    } else if 0x800 <= c as int {
      ThreeByteRoundTrip(c, rest);
    } else if 0x80 <= c as int {
      assert bs[0] == EncodeChar(c)[0] && bs[1] == EncodeChar(c)[1];
    }
  }

  lemma {:induction false} RoundTrip(s: string)
    ensures Decode(Encode(s)) == Some(s)
  {
    if s != "" {
      var e := EncodeChar(s[0]);
      var rest := Encode(s[1..]);
      CharRoundTrip(s[0], rest);
      assert (e + rest)[|e|..] == rest;
      RoundTrip(s[1..]);
      assert s == [s[0]] + s[1..];
    }
  }

  lemma SplitLast(q: int, r: int)
    requires 0 <= r < 64
    ensures (64 * q + r) / 64 == q && (64 * q + r) % 64 == r
  {
  }

  lemma ThreeParts(a: int, b: int, c: int)
    requires 0 <= a && 0 <= b < 64 && 0 <= c < 64
    ensures var n := Three(a, b, c); n / 4096 == a && n / 64 % 64 == b && n % 64 == c
  {
    var n := Three(a, b, c);
    SplitLast(64 * a + b, c);
    assert n == 64 * (64 * a + b) + c;
    SplitLast(a, b);
    assert n / 4096 == n / 64 / 64;
  }

  lemma FourParts(a: int, b: int, c: int, d: int)
    requires 0 <= a && 0 <= b < 64 && 0 <= c < 64 && 0 <= d < 64
    ensures var n := Four(a, b, c, d);
            n / 262144 == a && n / 4096 % 64 == b && n / 64 % 64 == c && n % 64 == d
  {
    var n := Four(a, b, c, d);
    var m := Three(a, b, c);
    ThreeParts(a, b, c);
    assert n == 64 * m + d;
    SplitLast(m, d);
    assert n / 4096 == n / 64 / 64 && n / 262144 == n / 64 / 4096;
  }

  lemma CharIsShortest(bs: seq<Byte>)
    requires DecodeChar(bs).Some?
    ensures var (c, n) := DecodeChar(bs).value; EncodeChar(c) == bs[..n]
  {
    var (c, n) := DecodeChar(bs).value;
    if n == 1 {
      assert bs[..1] == [bs[0]];
    } else if n == 2 {
      assert bs[..2] == [bs[0], bs[1]];
    } else if n == 3 {
      ThreeParts(bs[0] - 0xE0, bs[1] - 0x80, bs[2] - 0x80);
      assert bs[..3] == [bs[0], bs[1], bs[2]];
    } else {
      FourParts(bs[0] - 0xF0, bs[1] - 0x80, bs[2] - 0x80, bs[3] - 0x80);
      assert bs[..4] == [bs[0], bs[1], bs[2], bs[3]];
    }
  }

  /** Decoding accepts nothing but what encoding produces. */
  lemma {:induction false} DecodeIsExact(bs: seq<Byte>)
    ensures Decode(bs).Some? ==> Encode(Decode(bs).value) == bs
    decreases |bs|
  {
    hide DecodeChar, EncodeChar;
    if bs != [] && Decode(bs).Some? {
      CharIsShortest(bs);
      var (c, n) := DecodeChar(bs).value;
      DecodeIsExact(bs[n..]);
      var s := Decode(bs).value;
      assert s[1..] == Decode(bs[n..]).value;
      assert bs == bs[..n] + bs[n..];
    }
  }

  /** The number of bytes of a character, and what they hold of it: the lead byte says how
      many follow, each of those six bits. */
  lemma CharMeans(c: char)
    ensures var n, bs := c as int, EncodeChar(c);
            var lead := bs[0] as int;
            if n < 0x80 then bs == [n]
            else if n < 0x800 then
              |bs| == 2 && 0xC0 <= lead < 0xE0 && n == (lead - 0xC0) * 64 + Six(bs[1])
            else if n < 0x10000 then
              |bs| == 3 && 0xE0 <= lead < 0xF0 && n == (lead - 0xE0) * 4096 + Six(bs[1]) * 64 + Six(bs[2])
            else
              |bs| == 4 && 0xF0 <= lead < 0xF8
              && n == (lead - 0xF0) * 262144 + Six(bs[1]) * 4096 + Six(bs[2]) * 64 + Six(bs[3])
    ensures forall i :: 1 <= i < |EncodeChar(c)| ==> 0x80 <= EncodeChar(c)[i] < 0xC0
  {
    Regroup(c as int);
  }

  /** What a continuation byte holds. */
  function Six(b: Byte): int { b - 0x80 }
}
