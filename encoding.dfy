/**
 The two byte-packing helpers of the derivation: a 4-byte big-endian unsigned
 integer field (`uint_32`) and UTF-8 encoding of text (`utf8`), with their
 inverses as reference definitions.
 */
module Encoding {
  import opened Errors

  type byte = x: int | 0 <= x < 256

  const TWO_TO_32: int := 0x1_0000_0000

  // ---------------------------------------------------------------------------
  // uint_32: 4 bytes, most significant first
  // ---------------------------------------------------------------------------

  /** The value of a 4-byte big-endian field. */
  function FromUint32(b: seq<byte>): (n: nat)
    requires |b| == 4
    ensures n < TWO_TO_32
  {
    ((b[0] as int * 0x100 + b[1]) * 0x100 + b[2]) * 0x100 + b[3]
  }

  /** `i.to_bytes(4, 'big')`: fails with OverflowError unless 0 <= i < 2^32. */
  function Uint32(i: int): (r: Result<seq<byte>>)
    ensures r.Ok? <==> 0 <= i < TWO_TO_32
    ensures r.Err? ==> r.error == OverflowError
    ensures r.Ok? ==> |r.value| == 4 && FromUint32(r.value) == i
  {
    if 0 <= i < TWO_TO_32 then
      Ok([i / 0x100_0000, (i / 0x1_0000) % 0x100, (i / 0x100) % 0x100, i % 0x100])
    else
      Err(OverflowError)
  }

  /** Every 4-byte field is the encoding of the value it decodes to. */
  lemma Uint32OfFromUint32(b: seq<byte>)
    requires |b| == 4
    ensures Uint32(FromUint32(b)) == Ok(b)
  {
    var n := FromUint32(b);
    var r := Uint32(n).value;
    assert n / 0x100_0000 == b[0];
    assert (n / 0x1_0000) % 0x100 == b[1];
    assert (n / 0x100) % 0x100 == b[2];
    assert n % 0x100 == b[3];
    assert r == b;
  }

  // ---------------------------------------------------------------------------
  // utf8: section 3 of RFC 3629, over Unicode scalar values
  // ---------------------------------------------------------------------------

  predicate IsAsciiChar(c: char) {
    c as int < 0x80
  }

  predicate IsAscii(s: string) {
    forall i :: 0 <= i < |s| ==> IsAsciiChar(s[i])
  }

  predicate IsContinuation(b: byte) {
    0x80 <= b < 0xC0
  }

  /** The UTF-8 octet sequence of one scalar value, per the table in section 3 of RFC 3629. */
  function EncodeScalar(c: char): (r: seq<byte>)
    ensures 1 <= |r| <= 4
    ensures |r| == 1 <==> c as int < 0x80
    ensures |r| == 2 <==> 0x80 <= c as int < 0x800
    ensures |r| == 3 <==> 0x800 <= c as int < 0x1_0000
    ensures |r| == 4 <==> 0x1_0000 <= c as int
    ensures |r| == 1 ==> r[0] == c as int
    ensures |r| == 2 ==> 0xC2 <= r[0] < 0xE0
    ensures |r| == 3 ==> 0xE0 <= r[0] < 0xF0
    ensures |r| == 4 ==> 0xF0 <= r[0] <= 0xF4
    ensures forall k :: 1 <= k < |r| ==> IsContinuation(r[k])
  {
    var n := c as int;
    if n < 0x80 then
      [n]
    else if n < 0x800 then
      [0xC0 + n / 0x40, 0x80 + n % 0x40]
    else if n < 0x1_0000 then
      [0xE0 + n / 0x1000, 0x80 + (n / 0x40) % 0x40, 0x80 + n % 0x40]
    else
      [0xF0 + n / 0x4_0000, 0x80 + (n / 0x1000) % 0x40, 0x80 + (n / 0x40) % 0x40, 0x80 + n % 0x40]
  }

  /** `s.encode('UTF-8')`. */
  function Utf8(s: string): seq<byte>
  {
    if s == [] then [] else EncodeScalar(s[0]) + Utf8(s[1..])
  }

  /** Reference decoder of one scalar value: the character and the number of octets it takes. */
  function DecodeScalar(b: seq<byte>): (r: Option<(char, nat)>)
    ensures r.Some? ==> 1 <= r.value.1 <= |b|
  {
    if |b| == 0 then None
    else if b[0] < 0x80 then Some((b[0] as char, 1))
    else if 0xC0 <= b[0] < 0xE0 && |b| >= 2 && IsContinuation(b[1]) then
      var n := (b[0] as int - 0xC0) * 0x40 + (b[1] - 0x80);
      if 0x80 <= n then Some((n as char, 2)) else None
    else if 0xE0 <= b[0] < 0xF0 && |b| >= 3 && IsContinuation(b[1]) && IsContinuation(b[2]) then
      var n := ((b[0] as int - 0xE0) * 0x40 + (b[1] - 0x80)) * 0x40 + (b[2] - 0x80);
      if 0x800 <= n && !(0xD800 <= n < 0xE000) then Some((n as char, 3)) else None
    else if 0xF0 <= b[0] < 0xF8 && |b| >= 4
            && IsContinuation(b[1]) && IsContinuation(b[2]) && IsContinuation(b[3]) then
      var n := (((b[0] as int - 0xF0) * 0x40 + (b[1] - 0x80)) * 0x40 + (b[2] - 0x80)) * 0x40 + (b[3] - 0x80);
      if 0x1_0000 <= n < 0x11_0000 then Some((n as char, 4)) else None
    else None
  }

  /** Reference decoder of a whole octet sequence; None on malformed input. */
  function DecodeUtf8(b: seq<byte>): Option<string>
    decreases |b|
  {
    if b == [] then Some([])
    else
      match DecodeScalar(b)
      case None => None
      case Some((c, k)) =>
        match DecodeUtf8(b[k..])
        case None => None
        case Some(rest) => Some([c] + rest)
  }

  lemma Split64(n: int)
    requires n >= 0
    ensures n == (n / 0x40) * 0x40 + n % 0x40
    ensures n / 0x40 == (n / 0x1000) * 0x40 + (n / 0x40) % 0x40
    ensures n / 0x1000 == (n / 0x4_0000) * 0x40 + (n / 0x1000) % 0x40
  {
    assert (n / 0x40) / 0x40 == n / 0x1000;
    assert (n / 0x1000) / 0x40 == n / 0x4_0000;
  }

  lemma DecodeEncodeScalar(c: char, rest: seq<byte>)
    ensures DecodeScalar(EncodeScalar(c) + rest) == Some((c, |EncodeScalar(c)|))
  {
    var n := c as int;
    var b := EncodeScalar(c) + rest;
    Split64(n);
    if n < 0x80 {
    } else if n < 0x800 {
      assert b[0] as int - 0xC0 == n / 0x40 && b[1] - 0x80 == n % 0x40;
    } else if n < 0x1_0000 {
      assert b[0] as int - 0xE0 == n / 0x1000;
      assert b[1] - 0x80 == (n / 0x40) % 0x40 && b[2] - 0x80 == n % 0x40;
    } else {
      assert b[0] as int - 0xF0 == n / 0x4_0000;
      assert b[1] - 0x80 == (n / 0x1000) % 0x40;
      assert b[2] - 0x80 == (n / 0x40) % 0x40 && b[3] - 0x80 == n % 0x40;
    }
  }

  /** Decoding undoes `utf8`; in particular `utf8` is injective. */
  lemma {:induction false} Utf8RoundTrip(s: string)
    ensures DecodeUtf8(Utf8(s)) == Some(s)
  {
    if s != [] {
      var e := EncodeScalar(s[0]);
      DecodeEncodeScalar(s[0], Utf8(s[1..]));
      assert Utf8(s)[|e|..] == Utf8(s[1..]);
      Utf8RoundTrip(s[1..]);
      assert [s[0]] + s[1..] == s;
    }
  }

  lemma Utf8Injective(s: string, t: string)
    requires Utf8(s) == Utf8(t)
    ensures s == t
  {
    Utf8RoundTrip(s);
    Utf8RoundTrip(t);
  }

  /**
   The UTF-8 byte count is never below the code-point count, and the two agree
   exactly when the text is ASCII; then the encoding is the code points themselves.
   */
  lemma {:induction false} Utf8Length(s: string)
    ensures |Utf8(s)| >= |s|
    ensures |Utf8(s)| == |s| <==> IsAscii(s)
    ensures IsAscii(s) ==> forall i :: 0 <= i < |s| ==> Utf8(s)[i] == s[i] as int
  {
    if s != [] {
      Utf8Length(s[1..]);
      if IsAscii(s) {
        assert IsAscii(s[1..]) by {
          forall i | 0 <= i < |s[1..]| ensures IsAsciiChar(s[1..][i]) {
            assert s[1..][i] == s[i + 1];
          }
        }
        forall i | 0 <= i < |s| ensures Utf8(s)[i] == s[i] as int {
          if i > 0 { assert Utf8(s)[i] == Utf8(s[1..])[i - 1]; }
        }
      } else {
        var j :| 0 <= j < |s| && !IsAsciiChar(s[j]);
        if j > 0 {
          assert !IsAsciiChar(s[1..][j - 1]);
        }
      }
    }
  }

  /** U+26C4 SNOWMAN, the non-ASCII test input: one code point, three octets. */
  lemma SnowmanUtf8()
    ensures Utf8("⛄") == [0xE2, 0x9B, 0x84]
    ensures |"⛄"| == 1 && |Utf8("⛄")| == 3
  {
    assert "⛄"[0] as int == 0x26C4;
  }
}
