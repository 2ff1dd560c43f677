/** Base64 with padding (section 4 of RFC 4648). */
module Base64 {
  import opened Wrappers
  import opened Utf8

  function Digit(v: int): (c: char)
    requires 0 <= v < 64
    ensures Value(c) == Some(v) && c != '='
  {
    if v < 26 then (v + 65) as char
    else if v < 52 then (v + 71) as char
    else if v < 62 then (v - 4) as char
    else if v == 62 then '+'
    else '/'
  }

  function Value(c: char): (r: Option<int>)
    ensures r.Some? ==> 0 <= r.value < 64
  {
    if 'A' <= c <= 'Z' then Some(c as int - 65)
    else if 'a' <= c <= 'z' then Some(c as int - 71)
    else if '0' <= c <= '9' then Some(c as int + 4)
    else if c == '+' then Some(62)
    else if c == '/' then Some(63)
    else None
  }

  function Encode(bs: seq<Byte>): string {
    if bs == [] then ""
    else if |bs| == 1 then [Digit(bs[0] / 4), Digit(bs[0] % 4 * 16), '=', '=']
    else if |bs| == 2 then
      [Digit(bs[0] / 4), Digit(bs[0] % 4 * 16 + bs[1] / 16), Digit(bs[1] % 16 * 4), '=']
    else
      [Digit(bs[0] / 4), Digit(bs[0] % 4 * 16 + bs[1] / 16), Digit(bs[1] % 16 * 4 + bs[2] / 64), Digit(bs[2] % 64)]
      + Encode(bs[3..])
  }

  function Bytes(a: int, b: int, c: int, d: int): seq<Byte>
    requires 0 <= a < 64 && 0 <= b < 64 && 0 <= c < 64 && 0 <= d < 64
  {
    [a * 4 + b / 16, b % 16 * 16 + c / 4, c % 4 * 64 + d]
  }

  /** Padding only at the very end; the unused bits of a padded group are ignored. */
  function Decode(s: string): Option<seq<Byte>> {
    if s == "" then Some([])
    else if |s| < 4 then None
    else
      match (Value(s[0]), Value(s[1]), Value(s[2]), Value(s[3]))
      case (Some(a), Some(b), Some(c), Some(d)) =>
        (match Decode(s[4..])
         case None => None
         case Some(rest) => Some(Bytes(a, b, c, d) + rest))
      case (Some(a), Some(b), Some(c), None) =>
        if |s| == 4 && s[3] == '=' then Some([a * 4 + b / 16, b % 16 * 16 + c / 4]) else None
      case (Some(a), Some(b), None, None) =>
        if |s| == 4 && s[2] == '=' && s[3] == '=' then Some([a * 4 + b / 16]) else None
      case _ => None
  }

  lemma Group(x: int, y: int, z: int)
    requires 0 <= x < 256 && 0 <= y < 256 && 0 <= z < 256
    ensures var a, b, c, d := x / 4, x % 4 * 16 + y / 16, y % 16 * 4 + z / 64, z % 64;
            && 0 <= a < 64 && 0 <= b < 64 && 0 <= c < 64 && 0 <= d < 64
            && a * 4 + b / 16 == x && b % 16 * 16 + c / 4 == y && c % 4 * 64 + d == z
  {
  }

  lemma OneLeft(x: Byte)
    ensures Decode(Encode([x])) == Some([x])
  {
    Group(x, 0, 0);
  }

  lemma TwoLeft(x: Byte, y: Byte)
    ensures Decode(Encode([x, y])) == Some([x, y])
  {
    Group(x, y, 0);
  }

  lemma {:induction false} RoundTrip(bs: seq<Byte>)
    ensures Decode(Encode(bs)) == Some(bs)
  {
    if |bs| == 1 {
      assert bs == [bs[0]];
      OneLeft(bs[0]);
    } else if |bs| == 2 {
      assert bs == [bs[0], bs[1]];
      TwoLeft(bs[0], bs[1]);
    } else if |bs| >= 3 {
      RoundTrip(bs[3..]);
      assert bs == [bs[0], bs[1], bs[2]] + bs[3..];
      FullGroup(bs[0], bs[1], bs[2], bs[3..]);
    }
  }

  lemma DecodeGroup(w: int, x: int, y: int, z: int, tail: string, rest: seq<Byte>)
    requires 0 <= w < 64 && 0 <= x < 64 && 0 <= y < 64 && 0 <= z < 64
    requires Decode(tail) == Some(rest)
    ensures Decode(Quad(w, x, y, z) + tail) == Some(Bytes(w, x, y, z) + rest)
  {
    var s := [Digit(w), Digit(x), Digit(y), Digit(z)] + tail;
    assert s[4..] == tail;
    assert s[0] == Digit(w) && s[1] == Digit(x) && s[2] == Digit(y) && s[3] == Digit(z);
  }

  function Quad(a: int, b: int, c: int, d: int): string
    requires 0 <= a < 64 && 0 <= b < 64 && 0 <= c < 64 && 0 <= d < 64
  {
    [Digit(a), Digit(b), Digit(c), Digit(d)]
  }

  lemma EncodeUnfold(x: Byte, y: Byte, z: Byte, rest: seq<Byte>) returns (a: int, b: int, c: int, d: int)
    ensures 0 <= a < 64 && 0 <= b < 64 && 0 <= c < 64 && 0 <= d < 64
    ensures Encode([x, y, z] + rest) == Quad(a, b, c, d) + Encode(rest)
    ensures Bytes(a, b, c, d) == [x, y, z]
  {
    hide Digit, Encode;
    a, b, c, d := x / 4, x % 4 * 16 + y / 16, y % 16 * 4 + z / 64, z % 64;
    Group(x, y, z);
    FirstGroup([x, y, z] + rest, rest);
  }

  lemma {:induction false} FirstGroup(bs: seq<Byte>, rest: seq<Byte>)
    requires |bs| >= 3 && bs[3..] == rest
    ensures Encode(bs) ==
            Quad(bs[0] / 4, bs[0] % 4 * 16 + bs[1] / 16, bs[1] % 16 * 4 + bs[2] / 64, bs[2] % 64) + Encode(rest)
  {
    hide Digit;
  }

  lemma FullGroup(x: Byte, y: Byte, z: Byte, rest: seq<Byte>)
    requires Decode(Encode(rest)) == Some(rest)
    ensures Decode(Encode([x, y, z] + rest)) == Some([x, y, z] + rest)
  {
    var a, b, c, d := EncodeUnfold(x, y, z, rest);
    DecodeGroup(a, b, c, d, Encode(rest), rest);
  }

  predicate Plain(c: char) { ' ' < c <= '~' }

  ghost predicate AllPlain(s: string) { forall i :: 0 <= i < |s| ==> Plain(s[i]) }

  lemma DigitIsPlain(v: int)
    requires 0 <= v < 64
    ensures Plain(Digit(v))
  {
  }

  lemma FourPlain(a: char, b: char, c: char, d: char, rest: string)
    requires Plain(a) && Plain(b) && Plain(c) && Plain(d) && AllPlain(rest)
    ensures AllPlain([a, b, c, d] + rest) && |[a, b, c, d] + rest| == 4 + |rest|
  {
  }

  lemma OnePlain(x: Byte)
    ensures AllPlain(Encode([x])) && |Encode([x])| == 4
  {
    hide Digit, AllPlain;
    Group(x, 0, 0);
    DigitIsPlain(x / 4);
    DigitIsPlain(x % 4 * 16);
    NothingIsPlain();
    FourPlain(Digit(x / 4), Digit(x % 4 * 16), '=', '=', "");
    assert Encode([x]) == [Digit(x / 4), Digit(x % 4 * 16), '=', '='] + "";
  }

  lemma TwoPlain(x: Byte, y: Byte)
    ensures AllPlain(Encode([x, y])) && |Encode([x, y])| == 4
  {
    hide Digit, AllPlain;
    Group(x, y, 0);
    DigitIsPlain(x / 4);
    DigitIsPlain(x % 4 * 16 + y / 16);
    DigitIsPlain(y % 16 * 4);
    NothingIsPlain();
    FourPlain(Digit(x / 4), Digit(x % 4 * 16 + y / 16), Digit(y % 16 * 4), '=', "");
    assert Encode([x, y]) == [Digit(x / 4), Digit(x % 4 * 16 + y / 16), Digit(y % 16 * 4), '='] + "";
  }

  lemma NothingIsPlain()
    ensures AllPlain("")
  {
  }

  lemma ThreePlain(bs: seq<Byte>)
    requires |bs| >= 3 && AllPlain(Encode(bs[3..]))
    ensures AllPlain(Encode(bs)) && |Encode(bs)| == 4 + |Encode(bs[3..])|
  {
    hide Digit, AllPlain, Encode;
    var x, y, z := bs[0], bs[1], bs[2];
    Group(x, y, z);
    DigitIsPlain(x / 4);
    DigitIsPlain(x % 4 * 16 + y / 16);
    DigitIsPlain(y % 16 * 4 + z / 64);
    DigitIsPlain(z % 64);
    FirstGroup(bs, bs[3..]);
    FourPlain(Digit(x / 4), Digit(x % 4 * 16 + y / 16), Digit(y % 16 * 4 + z / 64), Digit(z % 64), Encode(bs[3..]));
  }

  /** The output is visible ASCII, in groups of four. */
  lemma {:induction false} OutputIsPlain(bs: seq<Byte>)
    ensures AllPlain(Encode(bs)) && |Encode(bs)| % 4 == 0
  {
    if |bs| == 0 {
      NothingIsPlain();
    } else if |bs| == 1 {
      assert bs == [bs[0]];
      OnePlain(bs[0]);
    } else if |bs| == 2 {
      assert bs == [bs[0], bs[1]];
      TwoPlain(bs[0], bs[1]);
    } else {
      OutputIsPlain(bs[3..]);
      ThreePlain(bs);
    }
  }

  // ---------------------------------------------------------------------------
  // What the characters stand for
  // ---------------------------------------------------------------------------

  /** A to Z stand for 0 to 25, a to z for 26 to 51, 0 to 9 for 52 to 61, then + and /. */
  predicate StandsFor(c: char, v: int) {
    || ('A' <= c <= 'Z' && v == c as int - 'A' as int)
    || ('a' <= c <= 'z' && v == 26 + (c as int - 'a' as int))
    || ('0' <= c <= '9' && v == 52 + (c as int - '0' as int))
    || (c == '+' && v == 62)
    || (c == '/' && v == 63)
  }

  lemma DigitStandsFor(v: int)
    requires 0 <= v < 64
    ensures StandsFor(Digit(v), v)
  {
  }

  /** Three bytes are four characters that stand for the same 24 bits. */
  lemma GroupMeans(bs: seq<Byte>) returns (a: int, b: int, c: int, d: int)
    requires |bs| >= 3
    ensures var e := Encode(bs);
            && |e| >= 4 && e[4..] == Encode(bs[3..])
            && StandsFor(e[0], a) && StandsFor(e[1], b) && StandsFor(e[2], c) && StandsFor(e[3], d)
    ensures a * 262144 + b * 4096 + c * 64 + d == (bs[0] as int) * 65536 + (bs[1] as int) * 256 + bs[2] as int
  {
    hide Digit, Encode, StandsFor;
    var x, y, z := bs[0], bs[1], bs[2];
    Group(x, y, z);
    a, b, c, d := x / 4, x % 4 * 16 + y / 16, y % 16 * 4 + z / 64, z % 64;
    DigitStandsFor(a);
    DigitStandsFor(b);
    DigitStandsFor(c);
    DigitStandsFor(d);
    FirstGroup(bs, bs[3..]);
    var e := Encode(bs);
    assert e == Quad(a, b, c, d) + Encode(bs[3..]);
    assert e[0] == Digit(a) && e[1] == Digit(b) && e[2] == Digit(c) && e[3] == Digit(d);
  }

  /** One byte at the end is two characters and two signs, with four zero bits filled in. */
  lemma OneByteMeans(x: Byte) returns (a: int, b: int)
    ensures var e := Encode([x]);
            |e| == 4 && StandsFor(e[0], a) && StandsFor(e[1], b) && e[2] == '=' && e[3] == '='
    ensures a * 64 + b == (x as int) * 16
  {
    hide Digit, StandsFor;
    Group(x, 0, 0);
    a, b := x / 4, x % 4 * 16;
    DigitStandsFor(a);
    DigitStandsFor(b);
  }

  /** Two bytes at the end are three characters and one sign, with two zero bits filled in. */
  lemma TwoBytesMean(x: Byte, y: Byte) returns (a: int, b: int, c: int)
    ensures var e := Encode([x, y]);
            |e| == 4 && StandsFor(e[0], a) && StandsFor(e[1], b) && StandsFor(e[2], c) && e[3] == '='
    ensures a * 4096 + b * 64 + c == (x as int) * 1024 + (y as int) * 4
  {
    hide Digit, StandsFor;
    Group(x, y, 0);
    a, b, c := x / 4, x % 4 * 16 + y / 16, y % 16 * 4;
    DigitStandsFor(a);
    DigitStandsFor(b);
    DigitStandsFor(c);
  }
}
