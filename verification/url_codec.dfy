/**
 * The two halves of the hand-off between the OTP page and the confirm page:
 * `encodeURIComponent`, which the OTP page applies to the email when it
 * builds the next URL, and `URLSearchParams.get`, which the confirm page uses
 * to read `email` and `otp` back (the application/x-www-form-urlencoded
 * parser of the WHATWG URL standard: `&`-separated pairs, `+` read as a
 * space, percent-escapes read as UTF-8 bytes).
 */
module UrlCodec {
  import opened Wrappers
  import Text

  // ---------------------------------------------------------------------------
  // UTF-8
  // ---------------------------------------------------------------------------

  predicate IsByte(b: int) { 0 <= b < 256 }
  predicate IsContinuation(b: int) { 0x80 <= b < 0xC0 }

  /** The UTF-8 bytes of one character (a Unicode scalar value). */
  function Utf8Char(c: char): (bs: seq<int>)
    ensures 1 <= |bs| <= 4
    ensures forall i :: 0 <= i < |bs| ==> IsByte(bs[i])
    ensures (c as int < 0x80) <==> |bs| == 1
  {
    var n := c as int;
    if n < 0x80 then [n]
    else if n < 0x800 then [0xC0 + n / 64, 0x80 + n % 64]
    else if n < 0x10000 then [0xE0 + n / 4096, 0x80 + (n / 64) % 64, 0x80 + n % 64]
    else [0xF0 + n / 262144, 0x80 + (n / 4096) % 64, 0x80 + (n / 64) % 64, 0x80 + n % 64]
  }

  function Utf8(s: string): seq<int> {
    if s == [] then [] else Utf8Char(s[0]) + Utf8(s[1..])
  }

  predicate IsScalar(n: int) { 0 <= n < 0xD800 || 0xE000 <= n < 0x11_0000 }

  /** One well-formed UTF-8 sequence at the front of `bs`: the character and
      how many bytes it took. */
  function DecodeOne(bs: seq<int>): (r: Option<(char, nat)>)
    ensures r.Some? ==> 1 <= r.value.1 <= |bs|
  {
    if bs == [] then None
    else
      var b0 := bs[0];
      if 0 <= b0 < 0x80 then Some((b0 as char, 1))
      else if 0xC2 <= b0 < 0xE0 && |bs| >= 2 && IsContinuation(bs[1]) then
        Some((((b0 - 0xC0) * 64 + (bs[1] - 0x80)) as char, 2))
      else if 0xE0 <= b0 < 0xF0 && |bs| >= 3 && IsContinuation(bs[1]) && IsContinuation(bs[2]) then
        var n := (b0 - 0xE0) * 4096 + (bs[1] - 0x80) * 64 + (bs[2] - 0x80);
        if 0x800 <= n && IsScalar(n) then Some((n as char, 3)) else None
      else if 0xF0 <= b0 < 0xF5 && |bs| >= 4 && IsContinuation(bs[1]) && IsContinuation(bs[2]) && IsContinuation(bs[3]) then
        var n := (b0 - 0xF0) * 262144 + (bs[1] - 0x80) * 4096 + (bs[2] - 0x80) * 64 + (bs[3] - 0x80);
        if 0x1_0000 <= n && IsScalar(n) then Some((n as char, 4)) else None
      else None
  }

  /** UTF-8 decoding; a byte that starts no well-formed sequence becomes U+FFFD. */
  function Utf8Decode(bs: seq<int>): string
    decreases |bs|
  {
    if bs == [] then []
    else match DecodeOne(bs)
      case Some((c, k)) => [c] + Utf8Decode(bs[k..])
      case None => ['\U{FFFD}'] + Utf8Decode(bs[1..])
  }

  lemma DecodeOneChar(c: char, rest: seq<int>)
    ensures DecodeOne(Utf8Char(c) + rest) == Some((c, |Utf8Char(c)|))
  {
    var n := c as int;
    if n < 0x80 {
    } else if n < 0x800 {
      DecodeTwo(c, rest);
    } else if n < 0x10000 {
      DecodeThree(c, rest);
    } else {
      DecodeFour(c, rest);
    }
  }

  lemma DecodeTwo(c: char, rest: seq<int>)
    requires 0x80 <= c as int < 0x800
    ensures DecodeOne(Utf8Char(c) + rest) == Some((c, 2))
  {
    var n := c as int;
    var b0, b1 := 0xC0 + n / 64, 0x80 + n % 64;
    var bs := Utf8Char(c) + rest;
    assert bs[0] == b0 && bs[1] == b1;
    assert 0xC2 <= b0 < 0xE0 && IsContinuation(b1);
    assert (b0 - 0xC0) * 64 + (b1 - 0x80) == n;
  }

  lemma DecodeThree(c: char, rest: seq<int>)
    requires 0x800 <= c as int < 0x1_0000
    ensures DecodeOne(Utf8Char(c) + rest) == Some((c, 3))
  {
    var n := c as int;
    var b0, b1, b2 := 0xE0 + n / 4096, 0x80 + (n / 64) % 64, 0x80 + n % 64;
    var bs := Utf8Char(c) + rest;
    assert bs[0] == b0 && bs[1] == b1 && bs[2] == b2;
    assert 0xE0 <= b0 < 0xF0 && IsContinuation(b1) && IsContinuation(b2);
    var q := n / 64;
    assert n == q * 64 + n % 64;
    assert q == (q / 64) * 64 + q % 64;
    assert q / 64 == n / 4096;
    assert (b0 - 0xE0) * 4096 + (b1 - 0x80) * 64 + (b2 - 0x80) == n;
  }

  lemma DecodeFour(c: char, rest: seq<int>)
    requires 0x1_0000 <= c as int
    ensures DecodeOne(Utf8Char(c) + rest) == Some((c, 4))
  {
    var n := c as int;
    var b0, b1, b2, b3 := 0xF0 + n / 262144, 0x80 + (n / 4096) % 64, 0x80 + (n / 64) % 64, 0x80 + n % 64;
    var bs := Utf8Char(c) + rest;
    assert bs[0] == b0 && bs[1] == b1 && bs[2] == b2 && bs[3] == b3;
    assert 0xF0 <= b0 < 0xF5 && IsContinuation(b1) && IsContinuation(b2) && IsContinuation(b3);
    var q := n / 64;
    var r := q / 64;
    assert n == q * 64 + n % 64;
    assert q == r * 64 + q % 64;
    assert r == (r / 64) * 64 + r % 64;
    assert r == n / 4096 && r / 64 == n / 262144;
    assert (b0 - 0xF0) * 262144 + (b1 - 0x80) * 4096 + (b2 - 0x80) * 64 + (b3 - 0x80) == n;
  }

  /** Decoding the UTF-8 of a string gives the string back. */
  lemma {:induction false} Utf8RoundTrip(s: string)
    ensures Utf8Decode(Utf8(s)) == s
  {
    if s != [] {
      Utf8RoundTrip(s[1..]);
      DecodeOneChar(s[0], Utf8(s[1..]));
      var bs := Utf8(s);
      assert bs[|Utf8Char(s[0])|..] == Utf8(s[1..]);
    }
  }

  // ---------------------------------------------------------------------------
  // encodeURIComponent
  // ---------------------------------------------------------------------------

  /** The characters `encodeURIComponent` leaves alone. */
  predicate IsUnreserved(c: char) {
    || 'A' <= c <= 'Z' || 'a' <= c <= 'z' || '0' <= c <= '9'
    || c == '-' || c == '_' || c == '.' || c == '!' || c == '~' || c == '*' || c == '\'' || c == '(' || c == ')'
  }

  function HexDigit(d: int): char
    requires 0 <= d < 16
  {
    if d < 10 then (48 + d) as char else (55 + d) as char
  }

  predicate IsHex(c: char) { '0' <= c <= '9' || 'A' <= c <= 'F' || 'a' <= c <= 'f' }

  function HexValue(c: char): int
    requires IsHex(c)
  {
    if '0' <= c <= '9' then c as int - 48
    else if 'A' <= c <= 'F' then c as int - 55
    else c as int - 87
  }

  /** `%XY` for every byte, upper-case hex. */
  function PercentBytes(bs: seq<int>): (s: string)
    requires forall i :: 0 <= i < |bs| ==> IsByte(bs[i])
    ensures |s| == 3 * |bs|
    ensures forall i :: 0 <= i < |s| ==> s[i] == '%' || IsHex(s[i])
  {
    if bs == [] then []
    else
      assert IsByte(bs[0]);
      ['%', HexDigit(bs[0] / 16), HexDigit(bs[0] % 16)] + PercentBytes(bs[1..])
  }

  function EncodeChar(c: char): (s: string)
    ensures forall i :: 0 <= i < |s| ==> IsUnreserved(s[i]) || s[i] == '%' || IsHex(s[i])
  {
    if IsUnreserved(c) then [c] else PercentBytes(Utf8Char(c))
  }

  /** `encodeURIComponent(s)` */
  function EncodeComponent(s: string): (r: string)
    ensures forall i :: 0 <= i < |r| ==> IsUnreserved(r[i]) || r[i] == '%' || IsHex(r[i])
  {
    if s == [] then [] else EncodeChar(s[0]) + EncodeComponent(s[1..])
  }

  /** The encoded text holds none of the characters that structure a query
      string, so it stays one value. */
  lemma EncodedIsQuerySafe(s: string)
    ensures '&' !in EncodeComponent(s) && '=' !in EncodeComponent(s) && '+' !in EncodeComponent(s)
    ensures '#' !in EncodeComponent(s)
  {
  }

  // ---------------------------------------------------------------------------
  // URLSearchParams
  // ---------------------------------------------------------------------------

  /** The bytes of a name or value: `+` is a space, `%XY` is a byte, every
      other character its UTF-8 bytes. */
  function FormBytes(s: string): seq<int> {
    if s == [] then []
    else if s[0] == '%' && |s| >= 3 && IsHex(s[1]) && IsHex(s[2]) then
      [HexValue(s[1]) * 16 + HexValue(s[2])] + FormBytes(s[3..])
    else if s[0] == '+' then [0x20] + FormBytes(s[1..])
    else Utf8Char(s[0]) + FormBytes(s[1..])
  }

  function FormDecode(s: string): string {
    Utf8Decode(FormBytes(s))
  }

  lemma HexDigitValue(d: int)
    requires 0 <= d < 16
    ensures IsHex(HexDigit(d)) && HexValue(HexDigit(d)) == d
  {
  }

  lemma {:induction false} FormBytesOfPercent(bs: seq<int>, rest: string)
    requires forall i :: 0 <= i < |bs| ==> IsByte(bs[i])
    ensures FormBytes(PercentBytes(bs) + rest) == bs + FormBytes(rest)
  {
    if bs != [] {
      FormBytesOfPercent(bs[1..], rest);
      HexDigitValue(bs[0] / 16);
      HexDigitValue(bs[0] % 16);
      var s := PercentBytes(bs) + rest;
      assert s[0] == '%' && s[1] == HexDigit(bs[0] / 16) && s[2] == HexDigit(bs[0] % 16);
      assert s[3..] == PercentBytes(bs[1..]) + rest;
      assert IsByte(bs[0]) && bs[0] == (bs[0] / 16) * 16 + bs[0] % 16;
      assert bs == [bs[0]] + bs[1..];
      assert FormBytes(s) == [bs[0]] + FormBytes(s[3..]);
    } else {
      assert PercentBytes(bs) + rest == rest;
    }
  }

  lemma {:induction false} FormBytesOfEncoded(s: string)
    ensures FormBytes(EncodeComponent(s)) == Utf8(s)
  {
    if s != [] {
      FormBytesOfEncoded(s[1..]);
      var c := s[0];
      var e := EncodeComponent(s);
      if IsUnreserved(c) {
        assert e == [c] + EncodeComponent(s[1..]);
        assert e[1..] == EncodeComponent(s[1..]);
      } else {
        FormBytesOfPercent(Utf8Char(c), EncodeComponent(s[1..]));
      }
    }
  }

  /** Reading back what `encodeURIComponent` wrote gives the original text. */
  lemma EncodeRoundTrip(s: string)
    ensures FormDecode(EncodeComponent(s)) == s
  {
    FormBytesOfEncoded(s);
    Utf8RoundTrip(s);
  }

  /** Text of unreserved characters reads back unchanged. */
  lemma {:induction false} PlainDecodesToItself(s: string)
    requires forall i :: 0 <= i < |s| ==> IsUnreserved(s[i])
    ensures FormDecode(s) == s
  {
    PlainIsEncoded(s);
    EncodeRoundTrip(s);
  }

  lemma {:induction false} PlainIsEncoded(s: string)
    requires forall i :: 0 <= i < |s| ==> IsUnreserved(s[i])
    ensures EncodeComponent(s) == s
  {
    if s != [] {
      PlainIsEncoded(s[1..]);
    }
  }

  /** Splits a pair at its first `=`; without one, the value is empty. */
  function SplitPair(p: string): (string, string) {
    if p == [] then ("", "")
    else if p[0] == '=' then ("", p[1..])
    else var (n, v) := SplitPair(p[1..]); ([p[0]] + n, v)
  }

  lemma {:induction false} SplitPairAt(n: string, v: string)
    requires '=' !in n
    ensures SplitPair(n + "=" + v) == (n, v)
  {
    if n != [] {
      SplitPairAt(n[1..], v);
      assert (n + "=" + v)[0] == n[0] && (n + "=" + v)[1..] == n[1..] + "=" + v;
      assert n == [n[0]] + n[1..];
    } else {
      assert n + "=" + v == ['='] + v;
    }
  }

  /** The value of the first pair whose name is `name`; empty pairs are skipped. */
  function Lookup(pairs: seq<string>, name: string): Option<string> {
    if pairs == [] then None
    else if pairs[0] == "" then Lookup(pairs[1..], name)
    else
      var (n, v) := SplitPair(pairs[0]);
      if FormDecode(n) == name then Some(FormDecode(v)) else Lookup(pairs[1..], name)
  }

  /** `new URLSearchParams(search).get(name)`; a leading `?` is dropped. */
  function SearchParamsGet(search: string, name: string): Option<string> {
    var query := if |search| > 0 && search[0] == '?' then search[1..] else search;
    Lookup(Text.Split(query, '&'), name)
  }
}
