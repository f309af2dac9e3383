/**
 * Percent-encoding as `Uri.EscapeDataString` performs it: every character
 * outside the unreserved set of section 2.3 of RFC 3986 is written as its
 * UTF-8 bytes, each byte as a `%HH` triplet with upper-case hexadecimal
 * digits (section 2.1 of RFC 3986). `Unescape` is an independent decoder,
 * used to state that escaping loses nothing.
 */
module PercentEncoding {
  import opened Wrappers

  type Byte = b: int | 0 <= b < 256

  /** ALPHA / DIGIT / "-" / "." / "_" / "~" (section 2.3 of RFC 3986). */
  predicate IsUnreserved(c: char) {
    ('A' <= c <= 'Z') || ('a' <= c <= 'z') || ('0' <= c <= '9') || c == '-' || c == '.' || c == '_' || c == '~'
  }

  /** A hexadecimal digit as an encoder is meant to produce it. */
  predicate IsUpperHex(c: char) {
    ('0' <= c <= '9') || ('A' <= c <= 'F')
  }

  /** A hexadecimal digit as a decoder must accept it (either case). */
  predicate IsHex(c: char) {
    IsUpperHex(c) || ('a' <= c <= 'f')
  }

  function HexValue(c: char): (n: int)
    requires IsHex(c)
    ensures 0 <= n < 16
  {
    if c <= '9' then c as int - '0' as int
    else if c <= 'F' then c as int - 'A' as int + 10
    else c as int - 'a' as int + 10
  }

  function HexDigit(n: int): (c: char)
    requires 0 <= n < 16
    ensures IsUpperHex(c) && IsUnreserved(c)
    ensures HexValue(c) == n
  {
    if n < 10 then ('0' as int + n) as char else ('A' as int + n - 10) as char
  }

  /** The `%HH` triplet of one byte. */
  function Triplet(b: Byte): (s: string)
    ensures |s| == 3 && s[0] == '%' && IsUpperHex(s[1]) && IsUpperHex(s[2])
    ensures 16 * HexValue(s[1]) + HexValue(s[2]) == b
  {
    ['%', HexDigit(b / 16), HexDigit(b % 16)]
  }

  /** The triplets of a byte sequence, in order. */
  function Triplets(bs: seq<Byte>): (s: string)
    ensures |s| == 3 * |bs|
  {
    if bs == [] then [] else Triplet(bs[0]) + Triplets(bs[1..])
  }

  /** The UTF-8 encoding of one Unicode scalar value. */
  function Utf8(c: char): (bs: seq<Byte>)
    ensures 1 <= |bs| <= 4
    ensures (c as int < 0x80) <==> |bs| == 1
  {
    var n := c as int;
    if n < 0x80 then [n]
    else if n < 0x800 then [0xC0 + n / 64, 0x80 + n % 64]
    else if n < 0x10000 then [0xE0 + n / 4096, 0x80 + n / 64 % 64, 0x80 + n % 64]
    else [0xF0 + n / 262144, 0x80 + n / 4096 % 64, 0x80 + n / 64 % 64, 0x80 + n % 64]
  }

  /** How one character is escaped. */
  function EscapeChar(c: char): (s: string)
    ensures IsUnreserved(c) ==> s == [c]
    ensures !IsUnreserved(c) ==> |s| >= 3 && s[0] == '%'
  {
    if IsUnreserved(c) then [c] else Triplets(Utf8(c))
  }

  /** `Uri.EscapeDataString`: every character escaped in turn. */
  function Escape(s: string): (r: string)
    ensures IsEscaped(r)
    ensures forall i :: 0 <= i < |r| ==> IsUnreserved(r[i]) || r[i] == '%'
    ensures |s| <= |r|
  {
    if s == [] then []
    else
      EscapedCharIsEscaped(s[0]);
      EscapedConcat(EscapeChar(s[0]), Escape(s[1..]));
      var r := EscapeChar(s[0]) + Escape(s[1..]);
      EscapedAlphabet(r);
      r
  }

  /**
   * A string made only of unreserved characters and `%HH` triplets with
   * upper-case digits: the shape section 2.1 of RFC 3986 asks producers for.
   */
  predicate IsEscaped(s: string)
    decreases |s|
  {
    || s == []
    || (IsUnreserved(s[0]) && IsEscaped(s[1..]))
    || (|s| >= 3 && s[0] == '%' && IsUpperHex(s[1]) && IsUpperHex(s[2]) && IsEscaped(s[3..]))
  }

  lemma {:induction false} EscapedConcat(a: string, b: string)
    requires IsEscaped(a) && IsEscaped(b)
    ensures IsEscaped(a + b)
    decreases |a|
  {
    if a == [] {
      assert a + b == b;
    } else if IsUnreserved(a[0]) && IsEscaped(a[1..]) {
      EscapedConcat(a[1..], b);
      assert (a + b)[1..] == a[1..] + b;
    } else {
      EscapedConcat(a[3..], b);
      assert (a + b)[3..] == a[3..] + b;
    }
  }

  lemma {:induction false} TripletsAreEscaped(bs: seq<Byte>)
    ensures IsEscaped(Triplets(bs))
  {
    if bs != [] {
      TripletsAreEscaped(bs[1..]);
      var t := Triplet(bs[0]);
      assert IsEscaped(t[3..]) by { assert t[3..] == []; }
      EscapedConcat(t, Triplets(bs[1..]));
    }
  }

  lemma EscapedCharIsEscaped(c: char)
    ensures IsEscaped(EscapeChar(c))
  {
    if IsUnreserved(c) {
      assert EscapeChar(c)[1..] == [];
    } else {
      TripletsAreEscaped(Utf8(c));
    }
  }

  /** An escaped string consists of unreserved characters and `%` only. */
  lemma {:induction false} EscapedAlphabet(s: string)
    requires IsEscaped(s)
    ensures forall i :: 0 <= i < |s| ==> IsUnreserved(s[i]) || s[i] == '%'
    decreases |s|
  {
    if s != [] {
      if IsUnreserved(s[0]) && IsEscaped(s[1..]) {
        EscapedAlphabet(s[1..]);
        assert forall i :: 1 <= i < |s| ==> s[i] == s[1..][i - 1];
      } else {
        EscapedAlphabet(s[3..]);
        assert forall i :: 3 <= i < |s| ==> s[i] == s[3..][i - 3];
      }
    }
  }

  // ---------------------------------------------------------------------
  // Decoding
  // ---------------------------------------------------------------------

  /** The byte written as a `%HH` triplet at position `i`, if there is one. */
  function ReadByte(s: string, i: nat): (r: Option<Byte>)
    ensures r.Some? ==> i + 3 <= |s|
  {
    if i + 3 <= |s| && s[i] == '%' && IsHex(s[i + 1]) && IsHex(s[i + 2])
    then Some(16 * HexValue(s[i + 1]) + HexValue(s[i + 2]))
    else None
  }

  /** The six payload bits of a UTF-8 continuation byte at triplet position `i`. */
  function ReadContinuation(s: string, i: nat): (r: Option<int>)
    ensures r.Some? ==> i + 3 <= |s| && 0 <= r.value < 64
  {
    var b :- ReadByte(s, i);
    if 0x80 <= b < 0xC0 then Some(b - 0x80) else None
  }

  predicate IsScalarValue(n: int) {
    (0 <= n < 0xD800) || (0xE000 <= n < 0x11_0000)
  }

  /**
   * Decodes the UTF-8 sequence written as triplets at the start of `s`:
   * the character and the number of string characters it took.
   * Overlong forms, surrogates and values above U+10FFFF are rejected.
   */
  function DecodeScalar(s: string): (r: Option<(char, nat)>)
    ensures r.Some? ==> 3 <= r.value.1 <= |s|
  {
    var b0 :- ReadByte(s, 0);
    if b0 < 0x80 then Some((b0 as char, 3))
    else if b0 < 0xC2 then None
    else if b0 < 0xE0 then
      var x1 :- ReadContinuation(s, 3);
      Some((((b0 - 0xC0) * 64 + x1) as char, 6))
    else if b0 < 0xF0 then
      var x1 :- ReadContinuation(s, 3);
      var x2 :- ReadContinuation(s, 6);
      var n := (b0 - 0xE0) * 4096 + x1 * 64 + x2;
      if n < 0x800 || !IsScalarValue(n) then None else Some((n as char, 9))
    else if b0 < 0xF5 then
      var x1 :- ReadContinuation(s, 3);
      var x2 :- ReadContinuation(s, 6);
      var x3 :- ReadContinuation(s, 9);
      var n := (b0 - 0xF0) * 262144 + x1 * 4096 + x2 * 64 + x3;
      if n < 0x10000 || !IsScalarValue(n) then None else Some((n as char, 12))
    else None
  }

  /** Percent-decoding followed by UTF-8 decoding; None for malformed input. */
  function Unescape(s: string): (r: Option<string>)
    decreases |s|
  {
    if s == [] then Some([])
    else if s[0] != '%' then
      var rest :- Unescape(s[1..]);
      Some([s[0]] + rest)
    else
      var (c, k) :- DecodeScalar(s);
      var rest :- Unescape(s[k..]);
      Some([c] + rest)
  }

  lemma ReadTriplet(s: string, i: nat, b: Byte)
    requires i + 3 <= |s| && s[i..i + 3] == Triplet(b)
    ensures ReadByte(s, i) == Some(b)
  {
    var t := Triplet(b);
    assert s[i] == t[0] && s[i + 1] == t[1] && s[i + 2] == t[2];
  }

  /** The k-th triplet of `Triplets(bs)` is that of `bs[k]`. */
  lemma {:induction false} TripletAt(bs: seq<Byte>, k: nat, rest: string)
    requires k < |bs|
    ensures (Triplets(bs) + rest)[3 * k..3 * k + 3] == Triplet(bs[k])
  {
    if k > 0 {
      TripletAt(bs[1..], k - 1, rest);
      assert Triplets(bs) + rest == Triplet(bs[0]) + (Triplets(bs[1..]) + rest);
      assert (Triplets(bs) + rest)[3 * k..3 * k + 3] == (Triplets(bs[1..]) + rest)[3 * (k - 1)..3 * (k - 1) + 3];
    }
  }

  lemma ReadUtf8Bytes(c: char, rest: string)
    ensures forall k :: 0 <= k < |Utf8(c)| ==> ReadByte(Triplets(Utf8(c)) + rest, 3 * k) == Some(Utf8(c)[k])
  {
    var bs := Utf8(c);
    forall k | 0 <= k < |bs|
      ensures ReadByte(Triplets(bs) + rest, 3 * k) == Some(bs[k])
    {
      TripletAt(bs, k, rest);
      ReadTriplet(Triplets(bs) + rest, 3 * k, bs[k]);
    }
  }

  lemma ReadUtf8Two(c: char, rest: string)
    requires 0x80 <= c as int < 0x800
    ensures DecodeScalar(Triplets(Utf8(c)) + rest) == Some((c, 6))
  {
    var n := c as int;
    ReadUtf8Bytes(c, rest);
    assert (n / 64) * 64 + n % 64 == n;
  }

  lemma ReadUtf8Three(c: char, rest: string)
    requires 0x800 <= c as int < 0x10000
    ensures DecodeScalar(Triplets(Utf8(c)) + rest) == Some((c, 9))
  {
    var n := c as int;
    var s := Triplets(Utf8(c)) + rest;
    ReadUtf8Bytes(c, rest);
    assert n / 64 / 64 == n / 4096;
    assert (n / 4096) * 4096 + (n / 64 % 64) * 64 + n % 64 == n;
    assert IsScalarValue(n);
    var bs := Utf8(c);
    assert ReadByte(s, 3 * 1) == Some(bs[1]) && ReadByte(s, 3 * 2) == Some(bs[2]);
    assert ReadContinuation(s, 3) == Some(n / 64 % 64);
    assert ReadContinuation(s, 6) == Some(n % 64);
  }

  lemma ReadUtf8Four(c: char, rest: string)
    requires 0x10000 <= c as int
    ensures DecodeScalar(Triplets(Utf8(c)) + rest) == Some((c, 12))
  {
    var n := c as int;
    var s := Triplets(Utf8(c)) + rest;
    ReadUtf8Bytes(c, rest);
    assert n / 64 / 64 == n / 4096;
    assert n / 4096 / 64 == n / 262144;
    assert (n / 262144) * 262144 + (n / 4096 % 64) * 4096 + (n / 64 % 64) * 64 + n % 64 == n;
    assert n < 0x11_0000;
    var bs := Utf8(c);
    assert ReadByte(s, 3 * 1) == Some(bs[1]) && ReadByte(s, 3 * 2) == Some(bs[2]) && ReadByte(s, 3 * 3) == Some(bs[3]);
    assert ReadContinuation(s, 3) == Some(n / 4096 % 64);
    assert ReadContinuation(s, 6) == Some(n / 64 % 64);
    assert ReadContinuation(s, 9) == Some(n % 64);
  }

  /** The triplets of a character's UTF-8 encoding decode back to that character. */
  lemma ReadUtf8(c: char, rest: string)
    ensures DecodeScalar(Triplets(Utf8(c)) + rest) == Some((c, 3 * |Utf8(c)|))
  {
    var n := c as int;
    if n < 0x80 {
      ReadUtf8Bytes(c, rest);
    } else if n < 0x800 {
      ReadUtf8Two(c, rest);
    } else if n < 0x10000 {
      ReadUtf8Three(c, rest);
    } else {
      ReadUtf8Four(c, rest);
    }
  }

  lemma UnescapeEscapeChar(c: char, rest: string)
    ensures Unescape(EscapeChar(c) + rest) == (var r :- Unescape(rest); Some([c] + r))
  {
    var s := EscapeChar(c) + rest;
    if IsUnreserved(c) {
      assert s[0] == c && s[1..] == rest;
    } else {
      ReadUtf8(c, rest);
      assert s[3 * |Utf8(c)|..] == rest;
    }
  }

  /** Escaping is undone by decoding: `Escape` loses no information. */
  lemma {:induction false} UnescapeEscape(s: string)
    ensures Unescape(Escape(s)) == Some(s)
  {
    if s != [] {
      UnescapeEscape(s[1..]);
      UnescapeEscapeChar(s[0], Escape(s[1..]));
      assert [s[0]] + s[1..] == s;
    }
  }

  /** Two strings with the same escaping are the same string. */
  lemma EscapeInjective(s: string, t: string)
    requires Escape(s) == Escape(t)
    ensures s == t
  {
    UnescapeEscape(s);
    UnescapeEscape(t);
  }

  /** Escaping distributes over concatenation. */
  lemma {:induction false} EscapeConcat(a: string, b: string)
    ensures Escape(a + b) == Escape(a) + Escape(b)
  {
    if a == [] {
      assert a + b == b;
    } else {
      assert (a + b)[0] == a[0] && (a + b)[1..] == a[1..] + b;
      EscapeConcat(a[1..], b);
    }
  }

  /** A string of unreserved characters is its own escaping. */
  lemma {:induction false} EscapeUnreserved(s: string)
    requires forall i :: 0 <= i < |s| ==> IsUnreserved(s[i])
    ensures Escape(s) == s
  {
    if s != [] {
      EscapeUnreserved(s[1..]);
      assert [s[0]] + s[1..] == s;
    }
  }
}
