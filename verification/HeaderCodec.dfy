/** Values of the Mcp-Name and Mcp-Param-* headers (cosai_mcp/protocol.py:75-77, 128-150). */
module HeaderCodec {
  import opened Wrappers
  import Utf8
  import Base64

  const PREFIX := "=?base64?"
  const SUFFIX := "?="

  /** The characters that `str.strip` removes. */
  predicate IsSpace(c: char) {
    var n := c as int;
    || 9 <= n <= 13 || 28 <= n <= 32 || n == 0x85 || n == 0xA0 || n == 0x1680
    || 0x2000 <= n <= 0x200A || n == 0x2028 || n == 0x2029 || n == 0x202F || n == 0x205F || n == 0x3000
  }

  predicate Stripped(s: string) {
    s == "" || (!IsSpace(s[0]) && !IsSpace(s[|s| - 1]))
  }

  predicate Visible(c: char) { c == '\t' || ' ' <= c <= '~' }

  predicate AllVisible(s: string) { forall i :: 0 <= i < |s| ==> Visible(s[i]) }

  predicate StartsWith(s: string, p: string) { |p| <= |s| && s[..|p|] == p }

  predicate EndsWith(s: string, p: string) { |p| <= |s| && s[|s| - |p|..] == p }

  predicate Wrapped(s: string) { StartsWith(s, PREFIX) && EndsWith(s, SUFFIX) }

  predicate Safe(value: string) { Stripped(value) && AllVisible(value) && !Wrapped(value) }

  function EncodeValue(value: string): string {
    if Safe(value) then value else PREFIX + Base64.Encode(Utf8.Encode(value)) + SUFFIX
  }

  /** `None`: the wrapped text is not Base64, or not UTF-8. */
  function DecodeValue(value: string): Option<string> {
    if Wrapped(value) then
      var inner := if |value| < |PREFIX| + |SUFFIX| then "" else value[|PREFIX|..|value| - |SUFFIX|];
      match Base64.Decode(inner)
      case None => None
      case Some(bs) => Utf8.Decode(bs)
    else Some(value)
  }

  /** Decoding inverts encoding on every string. */
  lemma RoundTrip(s: string)
    ensures DecodeValue(EncodeValue(s)) == Some(s)
  {
    if !Safe(s) {
      var inner := Base64.Encode(Utf8.Encode(s));
      var e := PREFIX + inner + SUFFIX;
      assert e[..|PREFIX|] == PREFIX && e[|e| - |SUFFIX|..] == SUFFIX;
      assert e[|PREFIX|..|e| - |SUFFIX|] == inner;
      Base64.RoundTrip(Utf8.Encode(s));
      Utf8.RoundTrip(s);
    }
  }

  /** Different values never share a header value. */
  lemma Injective(s: string, t: string)
    requires EncodeValue(s) == EncodeValue(t)
    ensures s == t
  {
    RoundTrip(s);
    RoundTrip(t);
  }

  /** The output can be carried by a header field unchanged: visible ASCII and tabs,
      nothing to strip at either end. */
  lemma OutputIsFieldSafe(s: string)
    ensures AllVisible(EncodeValue(s)) && Stripped(EncodeValue(s))
  {
    if !Safe(s) {
      Base64.OutputIsPlain(Utf8.Encode(s));
      var inner := Base64.Encode(Utf8.Encode(s));
      var e := PREFIX + inner + SUFFIX;
      forall i | 0 <= i < |e|
        ensures Visible(e[i])
      {
        if |PREFIX| <= i < |PREFIX| + |inner| {
          assert e[i] == inner[i - |PREFIX|];
        }
      }
    }
  }

  /** The encoding of each value is the one accepted form: a plain value wrapped in
      Base64 decodes to the same text but is a different header value. */
  lemma GratuitousWrapDiffers(s: string)
    requires Safe(s)
    ensures var w := PREFIX + Base64.Encode(Utf8.Encode(s)) + SUFFIX;
            DecodeValue(w) == Some(s) && w != EncodeValue(s)
  {
    var inner := Base64.Encode(Utf8.Encode(s));
    var w := PREFIX + inner + SUFFIX;
    assert w[..|PREFIX|] == PREFIX && w[|w| - |SUFFIX|..] == SUFFIX;
    assert w[|PREFIX|..|w| - |SUFFIX|] == inner;
    Base64.RoundTrip(Utf8.Encode(s));
    Utf8.RoundTrip(s);
  }
}
