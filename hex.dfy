/**
 * `hash_sha256_hex`: the digest of a file's bytes written as lowercase
 * Base16 (section 8 of RFC 4648, lowercase alphabet), each byte as
 * `b.toString(16).padStart(2, "0")` and the pieces joined with "". The
 * SHA-256 digest itself (FIPS 180-4) is a parameter.
 */
module Hex {

  type Byte = x: int | 0 <= x < 256

  /** The digest function; SHA-256 answers 32 bytes. */
  type Digest = seq<Byte> -> seq<Byte>

  predicate IsLowerHexDigit(c: char)
  {
    '0' <= c <= '9' || 'a' <= c <= 'f'
  }

  function HexDigit(d: int): (c: char)
    requires 0 <= d < 16
    ensures IsLowerHexDigit(c)
  {
    if d < 10 then ('0' as int + d) as char else ('a' as int + d - 10) as char
  }

  function HexDigitValue(c: char): (d: int)
    requires IsLowerHexDigit(c)
    ensures 0 <= d < 16
    ensures HexDigit(d) == c
  {
    if c <= '9' then c as int - '0' as int else c as int - 'a' as int + 10
  }

  /** `n.toString(16)`: the shortest lowercase base-16 numeral of `n`. */
  function ToRadix16(n: nat): (s: string)
    ensures |s| > 0
    ensures forall i :: 0 <= i < |s| ==> IsLowerHexDigit(s[i])
    ensures n < 16 <==> |s| == 1
    ensures 16 <= n < 256 ==> |s| == 2
  {
    if n < 16 then [HexDigit(n)] else ToRadix16(n / 16) + [HexDigit(n % 16)]
  }

  /** `s.padStart(width, fill)`: `fill` repeated in front until `s` is `width` long. */
  function PadStart(s: string, width: nat, fill: char): (r: string)
    ensures |r| == if |s| >= width then |s| else width
    ensures r[|r| - |s|..] == s
    ensures forall i :: 0 <= i < |r| - |s| ==> r[i] == fill
  {
    if |s| >= width then s else seq(width - |s|, _ => fill) + s
  }

  /** One byte as two lowercase hex digits. */
  function ByteToHex(b: Byte): (s: string)
    ensures |s| == 2
  {
    PadStart(ToRadix16(b), 2, '0')
  }

  /** `Array.from(bytes).map(ByteToHex).join("")`. */
  function Hex(bytes: seq<Byte>): (s: string)
    ensures |s| == 2 * |bytes|
  {
    if bytes == [] then "" else ByteToHex(bytes[0]) + Hex(bytes[1..])
  }

  /** The storage name of a file: the hex digest of its content. */
  function HashSha256Hex(content: seq<Byte>, digest: Digest): string
  {
    Hex(digest(content))
  }

  /** Reads two hex digits back as a byte. */
  function HexPairValue(hi: char, lo: char): Byte
    requires IsLowerHexDigit(hi) && IsLowerHexDigit(lo)
  {
    HexDigitValue(hi) * 16 + HexDigitValue(lo)
  }

  /** Every character is a lowercase hex digit. */
  predicate AllLowerHex(s: string)
  {
    forall i :: 0 <= i < |s| ==> IsLowerHexDigit(s[i])
  }

  /** Reads a lowercase hex string back as bytes, pair by pair; a trailing odd digit is dropped. */
  function Unhex(s: string): seq<Byte>
    requires AllLowerHex(s)
  {
    if |s| < 2 then [] else [HexPairValue(s[0], s[1])] + Unhex(s[2..])
  }

  // ---------------------------------------------------------------- properties

  /** A digit reads back as the value it was written from. */
  lemma HexDigitRoundTrip(d: int)
    requires 0 <= d < 16
    ensures HexDigitValue(HexDigit(d)) == d
  {
  }

  /** `b.toString(16)` of a byte: one digit below 16, else its high and its low digit. */
  lemma ToRadix16Byte(b: Byte)
    ensures ToRadix16(b) == if b < 16 then [HexDigit(b)] else [HexDigit(b / 16), HexDigit(b % 16)]
  {
    if b >= 16 {
      var hi := b / 16;
      assert 1 <= hi < 16;
      assert ToRadix16(hi) == [HexDigit(hi)];
    }
  }

  /** Padding one or two characters to width 2 with '0'. */
  lemma PadToTwo(s: string)
    requires 1 <= |s| <= 2
    ensures PadStart(s, 2, '0') == if |s| == 1 then ['0'] + s else s
  {
    if |s| == 1 {
      assert seq(1, _ => '0') == ['0'];
    }
  }

  /** A byte is written as its high and its low digit; a byte below 16 gets a leading '0'. */
  lemma ByteToHexDigits(b: Byte)
    ensures ByteToHex(b) == [HexDigit(b / 16), HexDigit(b % 16)]
    ensures b < 16 ==> ByteToHex(b)[0] == '0'
  {
    ToRadix16Byte(b);
    PadToTwo(ToRadix16(b));
    if b < 16 {
      assert b / 16 == 0 && b % 16 == b;
      assert HexDigit(0) == '0';
    }
  }

  /** Both characters of a byte are lowercase hex digits. */
  lemma ByteToHexIsLowercase(b: Byte)
    ensures IsLowerHexDigit(ByteToHex(b)[0]) && IsLowerHexDigit(ByteToHex(b)[1])
  {
    ByteToHexDigits(b);
  }

  lemma AllLowerHexAppend(a: string, b: string)
    requires AllLowerHex(a) && AllLowerHex(b)
    ensures AllLowerHex(a + b)
  {
    forall i | 0 <= i < |a + b| ensures IsLowerHexDigit((a + b)[i]) {
      if i >= |a| {
        assert (a + b)[i] == b[i - |a|];
      }
    }
  }

  /** Every character of the encoding is a lowercase hex digit. */
  lemma {:induction false} HexIsLowercase(bytes: seq<Byte>)
    ensures AllLowerHex(Hex(bytes))
  {
    if bytes != [] {
      var head, tail := ByteToHex(bytes[0]), Hex(bytes[1..]);
      ByteToHexIsLowercase(bytes[0]);
      HexIsLowercase(bytes[1..]);
      AllLowerHexAppend(head, tail);
    }
  }

  /** Encoding a concatenation is concatenating the encodings. */
  lemma {:induction false} HexAppend(a: seq<Byte>, b: seq<Byte>)
    ensures Hex(a + b) == Hex(a) + Hex(b)
  {
    if a == [] {
      assert a + b == b;
    } else {
      assert (a + b)[1..] == a[1..] + b;
      HexAppend(a[1..], b);
    }
  }

  /** A slice lying wholly past `a` in `a + b` is a slice of `b`. */
  lemma SliceAfter(a: string, b: string, lo: nat, hi: nat)
    requires |a| <= lo <= hi <= |a| + |b|
    ensures (a + b)[lo..hi] == b[lo - |a|..hi - |a|]
  {
  }

  /** Byte `i` occupies characters `2i` and `2i + 1`. */
  lemma {:induction false} HexAt(bytes: seq<Byte>, i: nat)
    requires i < |bytes|
    ensures Hex(bytes)[2 * i..2 * i + 2] == ByteToHex(bytes[i])
  {
    var head, tail := ByteToHex(bytes[0]), Hex(bytes[1..]);
    assert Hex(bytes) == head + tail;
    if i == 0 {
      assert (head + tail)[0..2] == head;
    } else {
      HexAt(bytes[1..], i - 1);
      assert bytes[1..][i - 1] == bytes[i];
      SliceAfter(head, tail, 2 * i, 2 * i + 2);
    }
  }

  /** A byte's two digits read back as the byte. */
  lemma ByteToHexRoundTrip(b: Byte)
    ensures AllLowerHex(ByteToHex(b))
    ensures HexPairValue(ByteToHex(b)[0], ByteToHex(b)[1]) == b
  {
    ByteToHexDigits(b);
    HexDigitRoundTrip(b / 16);
    HexDigitRoundTrip(b % 16);
  }

  /** Decoding reads the first pair, then the rest. */
  lemma UnhexCons(pair: string, rest: string)
    requires |pair| == 2 && AllLowerHex(pair)
    requires AllLowerHex(rest)
    ensures AllLowerHex(pair + rest)
    ensures Unhex(pair + rest) == [HexPairValue(pair[0], pair[1])] + Unhex(rest)
  {
    AllLowerHexAppend(pair, rest);
    assert (pair + rest)[2..] == rest;
  }

  /** Decoding the encoding gives the bytes back. */
  lemma {:induction false} UnhexHex(bytes: seq<Byte>)
    ensures AllLowerHex(Hex(bytes))
    ensures Unhex(Hex(bytes)) == bytes
  {
    if bytes == [] {
      assert AllLowerHex(Hex(bytes));
    } else {
      var head, tail := ByteToHex(bytes[0]), Hex(bytes[1..]);
      assert Hex(bytes) == head + tail;
      ByteToHexRoundTrip(bytes[0]);
      UnhexHex(bytes[1..]);
      UnhexCons(head, tail);
      assert [bytes[0]] + bytes[1..] == bytes;
    }
  }

  /** Different byte strings have different encodings. */
  lemma HexInjective(a: seq<Byte>, b: seq<Byte>)
    requires Hex(a) == Hex(b)
    ensures a == b
  {
    UnhexHex(a);
    UnhexHex(b);
  }

  /** A SHA-256 digest of 32 bytes gives a 64-character storage name. */
  lemma StorageNameLength(content: seq<Byte>, digest: Digest)
    requires |digest(content)| == 32
    ensures |HashSha256Hex(content, digest)| == 64
    ensures forall i :: 0 <= i < 64 ==> IsLowerHexDigit(HashSha256Hex(content, digest)[i])
  {
    HexIsLowercase(digest(content));
  }
}
