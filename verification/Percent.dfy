/** Percent-encoding (RFC 3986, section 2.1) over the bytes of a text, in the two dialects used. */
module Percent {
  import opened Basics

  newtype Byte = b: int | 0 <= b < 256

  /** A text, as its UTF-8 bytes. */
  type Bytes = seq<Byte>

  const PERCENT: Byte := 0x25
  const PLUS: Byte := 0x2B
  const SPACE: Byte := 0x20
  const MINUS: Byte := 0x2D
  const SLASH: Byte := 0x2F
  const STAR: Byte := 0x2A
  const TILDE: Byte := 0x7E

  /** An ASCII literal as bytes. */
  function Ascii(s: string): (r: Bytes)
    requires forall c | c in s :: c as int < 128
    ensures |r| == |s| && forall i | 0 <= i < |s| :: r[i] as int == s[i] as int
  {
    seq(|s|, i requires 0 <= i < |s| => assert s[i] in s; s[i] as int as Byte)
  }

  predicate Alphanumeric(b: Byte) { 0x30 <= b <= 0x39 || 0x41 <= b <= 0x5A || 0x61 <= b <= 0x7A }

  /** `urllib.parse.quote(..., safe="")` */
  predicate PythonSafe(b: Byte) { Alphanumeric(b) || b == 0x5F || b == 0x2E || b == 0x2D || b == TILDE }

  /** `java.net.URLEncoder`, apart from the space */
  predicate JavaSafe(b: Byte) { Alphanumeric(b) || b == 0x5F || b == 0x2E || b == 0x2D || b == STAR }

  /** Python leaves the unreserved characters alone (RFC 3986, section 2.3), Java `*` instead of `~`. */
  lemma SafeBytes(b: Byte)
    ensures var c := b as int as char;
            var common := 'A' <= c <= 'Z' || 'a' <= c <= 'z' || '0' <= c <= '9' || c == '-' || c == '.' || c == '_';
            (PythonSafe(b) <==> common || c == '~') && (JavaSafe(b) <==> common || c == '*')
  {
  }

  function HexDigit(d: Byte): Byte
    requires d < 16
  {
    if d < 10 then 0x30 + d else 0x37 + d
  }

  function HexValue(b: Byte): (d: Option<Byte>)
    ensures d.Some? ==> d.value < 16
  {
    if 0x30 <= b <= 0x39 then Some(b - 0x30)
    else if 0x41 <= b <= 0x46 then Some(b - 0x37)
    else if 0x61 <= b <= 0x66 then Some(b - 0x57)
    else None
  }

  function Triplet(b: Byte): Bytes { [PERCENT, HexDigit(b / 16), HexDigit(b % 16)] }

  /** What one byte becomes. */
  function EncodeByte(b: Byte, safe: Byte -> bool): Bytes { if safe(b) then [b] else Triplet(b) }

  function Encode(s: Bytes, safe: Byte -> bool): Bytes {
    if s == [] then [] else EncodeByte(s[0], safe) + Encode(s[1..], safe)
  }

  /** `URLEncoder.encode`: as above with `+` for a space. */
  function FormEncode(s: Bytes): Bytes {
    if s == [] then []
    else (if s[0] == SPACE then [PLUS] else EncodeByte(s[0], JavaSafe)) + FormEncode(s[1..])
  }

  /** `.replace("+", "%20")` */
  function PlusToTriplet(s: Bytes): Bytes {
    if s == [] then [] else (if s[0] == PLUS then Triplet(SPACE) else [s[0]]) + PlusToTriplet(s[1..])
  }

  /**
   * What two characters after a percent sign stand for: two hexadecimal digits. Java's decoder of
   * forms reads them as a signed number, so it takes a plus before a digit, and minus zero.
   */
  function Escaped(a: Byte, b: Byte, form: bool): Option<Byte> {
    if HexValue(b) == None then None
    else if HexValue(a).Some? then Some(HexValue(a).value * 16 + HexValue(b).value)
    else if form && a == PLUS then HexValue(b)
    else if form && a == MINUS && HexValue(b) == Some(0) then Some(0)
    else None
  }

  /** The bytes encoded, a plus meaning a space in forms; None when an escape cannot be read. */
  function Decode(s: Bytes, form: bool): Option<Bytes>
    decreases |s|
  {
    if s == [] then Some([])
    else if s[0] != PERCENT then
      var rest := Decode(s[1..], form);
      if rest == None then None else Some([if form && s[0] == PLUS then SPACE else s[0]] + rest.value)
    else if |s| < 3 || Escaped(s[1], s[2], form) == None then None
    else
      var rest := Decode(s[3..], form);
      if rest == None then None else Some([Escaped(s[1], s[2], form).value] + rest.value)
  }

  /** Hexadecimal digits of either case, and nothing else. */
  lemma HexValueIs(b: Byte)
    ensures HexValue(b) == None <==> !(0x30 <= b <= 0x39 || 0x41 <= b <= 0x46 || 0x61 <= b <= 0x66)
    ensures 0x30 <= b <= 0x39 ==> HexValue(b) == Some(b - 48)
    ensures 0x41 <= b <= 0x46 ==> HexValue(b) == Some(b - 65 + 10)
    ensures 0x61 <= b <= 0x66 ==> HexValue(b) == Some(b - 97 + 10)
  {
  }

  /** An escape is two such digits; in forms also `+` and a digit, or `-0`. */
  lemma EscapedIs(a: Byte, b: Byte, form: bool)
    ensures Escaped(a, b, form).Some? <==>
            HexValue(b).Some? && (HexValue(a).Some? || (form && (a == 0x2B || (a == 0x2D && b == 0x30))))
    ensures Escaped(a, b, form).Some? ==>
            Escaped(a, b, form).value == (if HexValue(a).Some? then 16 * HexValue(a).value else 0) + HexValue(b).value
  {
  }

  lemma HexRoundTrip(d: Byte)
    requires d < 16
    ensures HexValue(HexDigit(d)) == Some(d)
  {
  }

  lemma DecodeTriplet(b: Byte, rest: Bytes, form: bool)
    requires Decode(rest, form).Some?
    ensures Decode(Triplet(b) + rest, form) == Some([b] + Decode(rest, form).value)
  {
    HexRoundTrip(b / 16);
    HexRoundTrip(b % 16);
    var s := Triplet(b) + rest;
    assert s[0] == PERCENT && s[1] == HexDigit(b / 16) && s[2] == HexDigit(b % 16) && s[3..] == rest;
  }

  lemma DecodePlain(b: Byte, rest: Bytes, form: bool)
    requires b != PERCENT && Decode(rest, form).Some?
    ensures Decode([b] + rest, form)
            == Some([if form && b == PLUS then SPACE else b] + Decode(rest, form).value)
  {
    assert ([b] + rest)[1..] == rest;
  }

  /** A table of bytes left alone that decoding leaves alone too. */
  ghost predicate Reversible(safe: Byte -> bool, form: bool) {
    !safe(PERCENT) && (form ==> !safe(PLUS))
  }

  /** Decoding undoes encoding on every text. */
  lemma {:induction false} DecodeEncode(s: Bytes, safe: Byte -> bool, form: bool)
    requires Reversible(safe, form)
    ensures Decode(Encode(s, safe), form) == Some(s)
  {
    if s != [] {
      DecodeEncode(s[1..], safe, form);
      if safe(s[0]) {
        DecodePlain(s[0], Encode(s[1..], safe), form);
      } else {
        DecodeTriplet(s[0], Encode(s[1..], safe), form);
      }
      assert s == [s[0]] + s[1..];
    }
  }

  lemma {:induction false} DecodeForm(s: Bytes)
    ensures Decode(FormEncode(s), true) == Some(s)
  {
    if s != [] {
      DecodeForm(s[1..]);
      var rest := FormEncode(s[1..]);
      if s[0] == SPACE {
        DecodePlain(PLUS, rest, true);
      } else if JavaSafe(s[0]) {
        DecodePlain(s[0], rest, true);
      } else {
        DecodeTriplet(s[0], rest, true);
      }
      assert s == [s[0]] + s[1..];
    }
  }

  lemma PlusStep(b: Byte, rest: Bytes)
    requires b != PLUS
    ensures PlusToTriplet([b] + rest) == [b] + PlusToTriplet(rest)
  {
    assert ([b] + rest)[1..] == rest;
  }

  lemma PlusTriplet(b: Byte, rest: Bytes)
    ensures PlusToTriplet(Triplet(b) + rest) == Triplet(b) + PlusToTriplet(rest)
  {
    var h, l := HexDigit(b / 16), HexDigit(b % 16);
    PlusStep(l, rest);
    PlusStep(h, [l] + rest);
    PlusStep(PERCENT, [h] + ([l] + rest));
    assert Triplet(b) + rest == [PERCENT] + ([h] + ([l] + rest));
  }

  /** Java's path encoding is plain percent-encoding with its own table. */
  lemma {:induction false} JavaPathEncoding(s: Bytes)
    ensures PlusToTriplet(FormEncode(s)) == Encode(s, JavaSafe)
  {
    if s != [] {
      JavaPathEncoding(s[1..]);
      var rest := FormEncode(s[1..]);
      if s[0] == SPACE {
        assert ([PLUS] + rest)[1..] == rest;
      } else if JavaSafe(s[0]) {
        PlusStep(s[0], rest);
      } else {
        PlusTriplet(s[0], rest);
      }
    }
  }

  /** Encoded texts consist of unreserved characters, percent signs and hexadecimal digits. */
  lemma {:induction false} EncodedBytes(s: Bytes, safe: Byte -> bool)
    ensures forall b | b in Encode(s, safe) :: safe(b) || b == PERCENT || Alphanumeric(b)
  {
    if s != [] { EncodedBytes(s[1..], safe); }
  }

  lemma {:induction false} FormEncodedBytes(s: Bytes)
    ensures forall b | b in FormEncode(s) :: JavaSafe(b) || b == PERCENT || b == PLUS || Alphanumeric(b)
  {
    if s != [] { FormEncodedBytes(s[1..]); }
  }

  /** Two tables encode a text alike exactly when they agree on each of its bytes. */
  lemma {:induction false} SameEncoding(s: Bytes, safe: Byte -> bool, safe': Byte -> bool)
    requires !safe(PERCENT) && !safe'(PERCENT)
    ensures Encode(s, safe) == Encode(s, safe') <==> forall b | b in s :: safe(b) == safe'(b)
  {
    if s != [] {
      var t, u, u' := s[1..], Encode(s[1..], safe), Encode(s[1..], safe');
      SameEncoding(t, safe, safe');
      assert s == [s[0]] + t;
      if safe(s[0]) == safe'(s[0]) {
        var head := EncodeByte(s[0], safe);
        assert (head + u)[|head|..] == u && (head + u')[|head|..] == u';
      } else {
        assert (EncodeByte(s[0], safe) + u)[0] != (EncodeByte(s[0], safe') + u')[0];
        assert s[0] in s;
      }
    }
  }
}
