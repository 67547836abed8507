/**
 * The text encodings that the API record types rely on: the lowercase
 * hexadecimal produced by `secrets.token_hex`, the canonical hyphenated form
 * of a UUID (`str(uuid)`), and the decimal form of a non-negative integer
 * (`str(int)`). Each encoder comes with its decoder and the round trip
 * between them.
 */
module Encoding {
  import opened Wrappers

  /** One octet. */
  type byte = x: int | 0 <= x < 256

  /** The sixteen octets of a UUID, most significant first. */
  type UuidBytes = u: seq<byte> | |u| == 16 witness [0, 0, 0, 0, 0, 0, 0, 0, 0, 0, 0, 0, 0, 0, 0, 0]

  // ---------------------------------------------------------------------
  // Lowercase hexadecimal
  // ---------------------------------------------------------------------

  /** The alphabet of `bytes.hex()`: decimal digits and lowercase a-f. */
  predicate IsHexChar(c: char) {
    '0' <= c <= '9' || 'a' <= c <= 'f'
  }

  predicate IsHexString(s: string) {
    forall i :: 0 <= i < |s| ==> IsHexChar(s[i])
  }

  /** The value of one hexadecimal digit. */
  function HexValue(c: char): (n: int)
    requires IsHexChar(c)
    ensures 0 <= n < 16
  {
    if c <= '9' then c as int - '0' as int else c as int - 'a' as int + 10
  }

  /** The lowercase hexadecimal digit for a nibble; it is the digit that HexValue reads back. */
  function HexDigit(n: int): (c: char)
    requires 0 <= n < 16
    ensures IsHexChar(c)
    ensures HexValue(c) == n
  {
    if n < 10 then ('0' as int + n) as char else ('a' as int + n - 10) as char
  }

  lemma HexDigitOfValue(c: char)
    requires IsHexChar(c)
    ensures HexDigit(HexValue(c)) == c
  {
  }

  /** `bytes.hex()`: two lowercase hexadecimal digits per octet, high nibble first. */
  function HexEncode(bs: seq<byte>): (s: string)
    ensures |s| == 2 * |bs|
    ensures IsHexString(s)
  {
    if bs == [] then []
    else [HexDigit(bs[0] / 16), HexDigit(bs[0] % 16)] + HexEncode(bs[1..])
  }

  /** `bytes.fromhex` restricted to lowercase digits without separators. */
  function HexDecode(s: string): (bs: seq<byte>)
    requires |s| % 2 == 0 && IsHexString(s)
    ensures |bs| == |s| / 2
  {
    if s == [] then []
    else [HexValue(s[0]) * 16 + HexValue(s[1])] + HexDecode(s[2..])
  }

  /** Decoding undoes encoding. */
  lemma {:induction false} HexDecodeEncode(bs: seq<byte>)
    ensures HexDecode(HexEncode(bs)) == bs
  {
    if bs != [] {
      var s := HexEncode(bs);
      assert s[2..] == HexEncode(bs[1..]);
      assert HexValue(s[0]) * 16 + HexValue(s[1]) == bs[0];
      HexDecodeEncode(bs[1..]);
    }
  }

  /** An octet written as high nibble and low nibble splits back into them. */
  lemma NibbleSplit(hi: int, lo: int)
    requires 0 <= hi < 16 && 0 <= lo < 16
    ensures (hi * 16 + lo) / 16 == hi && (hi * 16 + lo) % 16 == lo
  {
  }

  /** Encoding undoes decoding: every even-length lowercase hex string is an encoding. */
  lemma {:induction false} HexEncodeDecode(s: string)
    requires |s| % 2 == 0 && IsHexString(s)
    ensures HexEncode(HexDecode(s)) == s
  {
    if s != [] {
      var bs := HexDecode(s);
      var b := HexValue(s[0]) * 16 + HexValue(s[1]);
      assert bs[0] == b && bs[1..] == HexDecode(s[2..]);
      NibbleSplit(HexValue(s[0]), HexValue(s[1]));
      HexDigitOfValue(s[0]);
      HexDigitOfValue(s[1]);
      HexEncodeDecode(s[2..]);
      assert s == [s[0], s[1]] + s[2..];
    }
  }

  /** Distinct octet strings have distinct hexadecimal forms. */
  lemma HexEncodeInjective(a: seq<byte>, b: seq<byte>)
    ensures HexEncode(a) == HexEncode(b) <==> a == b
  {
    if HexEncode(a) == HexEncode(b) {
      HexDecodeEncode(a);
      HexDecodeEncode(b);
    }
  }

  /** Hex encoding distributes over concatenation. */
  lemma {:induction false} HexEncodeAppend(a: seq<byte>, b: seq<byte>)
    ensures HexEncode(a + b) == HexEncode(a) + HexEncode(b)
  {
    if a == [] {
      assert a + b == b;
    } else {
      assert (a + b)[1..] == a[1..] + b;
      HexEncodeAppend(a[1..], b);
    }
  }

  // ---------------------------------------------------------------------
  // Canonical UUID text, as str(uuid.UUID) renders it
  // ---------------------------------------------------------------------

  /** 8-4-4-4-12 lowercase hexadecimal digits separated by hyphens. */
  function UuidString(u: UuidBytes): (s: string)
    ensures |s| == 36
    ensures s[8] == '-' && s[13] == '-' && s[18] == '-' && s[23] == '-'
    ensures IsHexString(s[..8]) && IsHexString(s[9..13]) && IsHexString(s[14..18])
    ensures IsHexString(s[19..23]) && IsHexString(s[24..])
    ensures s[..8] == HexEncode(u)[..8] && s[9..13] == HexEncode(u)[8..12]
    ensures s[14..18] == HexEncode(u)[12..16] && s[19..23] == HexEncode(u)[16..20]
    ensures s[24..] == HexEncode(u)[20..]
  {
    var h := HexEncode(u);
    var s := h[..8] + "-" + h[8..12] + "-" + h[12..16] + "-" + h[16..20] + "-" + h[20..];
    assert s[..8] == h[..8] && s[9..13] == h[8..12] && s[14..18] == h[12..16];
    assert s[19..23] == h[16..20] && s[24..] == h[20..];
    s
  }

  /** Reads the canonical UUID text back; None for anything else. */
  function ParseUuid(s: string): (r: Option<UuidBytes>)
    ensures r.Some? ==> UuidString(r.value) == s
  {
    if |s| == 36 && s[8] == '-' && s[13] == '-' && s[18] == '-' && s[23] == '-' then
      var h := s[..8] + s[9..13] + s[14..18] + s[19..23] + s[24..];
      if IsHexString(h) then
        HexEncodeDecode(h);
        var u: UuidBytes := HexDecode(h);
        assert HexEncode(u)[..8] == s[..8];
        assert HexEncode(u)[8..12] == s[9..13];
        assert HexEncode(u)[12..16] == s[14..18];
        assert HexEncode(u)[16..20] == s[19..23];
        assert HexEncode(u)[20..] == s[24..];
        Some(u)
      else None
    else None
  }

  /** Every UUID's text reads back as that UUID, so distinct UUIDs render differently. */
  lemma ParseUuidString(u: UuidBytes)
    ensures ParseUuid(UuidString(u)) == Some(u)
  {
    var s := UuidString(u);
    var h := HexEncode(u);
    assert h == h[..8] + h[8..12] + h[12..16] + h[16..20] + h[20..];
    assert s[..8] + s[9..13] + s[14..18] + s[19..23] + s[24..] == h;
    HexDecodeEncode(u);
  }

  // ---------------------------------------------------------------------
  // Decimal text of a non-negative integer, as str(int) renders it
  // ---------------------------------------------------------------------

  predicate IsDigit(c: char) {
    '0' <= c <= '9'
  }

  /** Canonical decimal: one or more digits, no leading zero unless the number is 0. */
  predicate IsCanonicalDecimal(s: string) {
    |s| >= 1 && (forall i :: 0 <= i < |s| ==> IsDigit(s[i])) && (|s| > 1 ==> s[0] != '0')
  }

  function DecimalString(n: nat): (s: string)
    ensures IsCanonicalDecimal(s)
  {
    if n < 10 then [('0' as int + n) as char]
    else DecimalString(n / 10) + [('0' as int + n % 10) as char]
  }

  /** The number a string of decimal digits denotes. */
  function DecimalValue(s: string): (n: nat)
    requires forall i :: 0 <= i < |s| ==> IsDigit(s[i])
  {
    if s == [] then 0
    else
      assert IsDigit(s[|s| - 1]);
      DecimalValue(s[..|s| - 1]) * 10 + (s[|s| - 1] as int - '0' as int)
  }

  /** Reading the decimal text gives back the number. */
  lemma {:induction false} DecimalRoundTrip(n: nat)
    ensures DecimalValue(DecimalString(n)) == n
  {
    var s := DecimalString(n);
    if n >= 10 {
      assert s[..|s| - 1] == DecimalString(n / 10);
      DecimalRoundTrip(n / 10);
    }
  }

  /** Distinct numbers have distinct decimal text. */
  lemma DecimalStringInjective(m: nat, n: nat)
    ensures DecimalString(m) == DecimalString(n) <==> m == n
  {
    if DecimalString(m) == DecimalString(n) {
      DecimalRoundTrip(m);
      DecimalRoundTrip(n);
    }
  }
}
