/**
 * Bytes, the lower-case hexadecimal form used for content hashes on both
 * sides of the ledger (Python's `bytes.hex()` / `hexdigest()` and
 * `bytes.fromhex`), and UTF-8, the encoding the hash is taken over.
 */
module Bytes {
  import opened Wrappers

  type Byte = b: int | 0 <= b < 256

  /** A SHA-256 digest (FIPS 180-4): always 32 bytes. */
  type Digest = d: seq<Byte> | |d| == 32 witness seq(32, _ => 0)

  /** The characters `bytes.hex()` produces: `0`-`9` and `a`-`f`. */
  predicate IsLowerHexDigit(c: char) {
    ('0' <= c <= '9') || ('a' <= c <= 'f')
  }

  predicate IsLowerHex(s: string) {
    forall i :: 0 <= i < |s| ==> IsLowerHexDigit(s[i])
  }

  /** The lower-case digit for a nibble. */
  function HexDigit(n: int): (c: char)
    requires 0 <= n < 16
    ensures IsLowerHexDigit(c)
  {
    if n < 10 then ('0' as int + n) as char else ('a' as int + n - 10) as char
  }

  /** `bytes.hex()`: two lower-case hexadecimal digits per byte, high nibble first. */
  function Hex(bs: seq<Byte>): (s: string)
    ensures |s| == 2 * |bs|
    ensures IsLowerHex(s)
  {
    if bs == [] then ""
    else [HexDigit(bs[0] / 16), HexDigit(bs[0] % 16)] + Hex(bs[1..])
  }

  /** The whitespace `bytes.fromhex` skips between byte pairs (ASCII only). */
  predicate IsAsciiSpace(c: char) {
    c == ' ' || ('\t' <= c <= '\r')
  }

  /** The value of one hexadecimal digit of either case. */
  function DigitValue(c: char): (v: Option<int>)
    ensures v.Some? ==> 0 <= v.value < 16
  {
    if '0' <= c <= '9' then Some(c as int - '0' as int)
    else if 'a' <= c <= 'f' then Some(c as int - 'a' as int + 10)
    else if 'A' <= c <= 'F' then Some(c as int - 'A' as int + 10)
    else None
  }

  /**
   * `bytes.fromhex(s)`: pairs of hexadecimal digits, with ASCII whitespace
   * allowed between pairs; anything else raises `ValueError` (`None` here).
   */
  function FromHex(s: string): (r: Option<seq<Byte>>)
    decreases |s|
  {
    if s == [] then Some([])
    else if IsAsciiSpace(s[0]) then FromHex(s[1..])
    else if |s| < 2 then None
    else
      match (DigitValue(s[0]), DigitValue(s[1]), FromHex(s[2..]))
      case (Some(hi), Some(lo), Some(rest)) => Some([hi * 16 + lo] + rest)
      case _ => None
  }

  lemma HexDigitValue(n: int)
    requires 0 <= n < 16
    ensures DigitValue(HexDigit(n)) == Some(n)
  {
  }

  /** Decoding what `bytes.hex()` produced gives the bytes back. */
  lemma {:induction false} FromHexOfHex(bs: seq<Byte>)
    ensures FromHex(Hex(bs)) == Some(bs)
  {
    if bs != [] {
      var s := Hex(bs);
      HexDigitValue(bs[0] / 16);
      HexDigitValue(bs[0] % 16);
      FromHexOfHex(bs[1..]);
      assert s[2..] == Hex(bs[1..]);
      assert bs == [bs[0] / 16 * 16 + bs[0] % 16] + bs[1..];
    }
  }

  /** Lower-case hex of even length is exactly `Hex` of the bytes it decodes to. */
  lemma {:induction false} HexOfFromHex(s: string)
    requires IsLowerHex(s) && |s| % 2 == 0
    ensures FromHex(s).Some? && Hex(FromHex(s).value) == s
    decreases |s|
  {
    if s != [] {
      var hi := DigitOf(s[0]);
      var lo := DigitOf(s[1]);
      HexOfFromHex(s[2..]);
      var rest := FromHex(s[2..]).value;
      var b := Nibbles(hi, lo);
      FromHexPair(s, hi, lo);
      HexCons(b, rest);
      assert s == [s[0], s[1]] + s[2..];
    }
  }

  /** Two hexadecimal digits in front add one byte to the decoding. */
  lemma FromHexPair(s: string, hi: int, lo: int)
    requires |s| >= 2 && !IsAsciiSpace(s[0]) && DigitValue(s[0]) == Some(hi) && DigitValue(s[1]) == Some(lo)
    requires FromHex(s[2..]).Some?
    ensures FromHex(s) == Some([hi * 16 + lo] + FromHex(s[2..]).value)
  {
  }

  /** Encoding one more byte puts its two digits in front. */
  lemma HexCons(b: Byte, rest: seq<Byte>)
    ensures Hex([b] + rest) == [HexDigit(b / 16), HexDigit(b % 16)] + Hex(rest)
  {
    assert ([b] + rest)[1..] == rest;
  }

  lemma DigitOf(c: char) returns (n: int)
    requires IsLowerHexDigit(c)
    ensures 0 <= n < 16 && HexDigit(n) == c && DigitValue(c) == Some(n)
  {
    n := if c <= '9' then c as int - '0' as int else c as int - 'a' as int + 10;
  }

  lemma Nibbles(hi: int, lo: int) returns (b: Byte)
    requires 0 <= hi < 16 && 0 <= lo < 16
    ensures b == hi * 16 + lo && b / 16 == hi && b % 16 == lo
  {
    b := hi * 16 + lo;
  }

  /** UTF-8 encoding of one Unicode scalar value. */
  function Utf8Char(c: char): (bs: seq<Byte>)
    ensures 1 <= |bs| <= 4
  {
    var n := c as int;
    if n < 0x80 then [n]
    else if n < 0x800 then [0xC0 + n / 0x40, 0x80 + n % 0x40]
    else if n < 0x1_0000 then [0xE0 + n / 0x1000, 0x80 + (n / 0x40) % 0x40, 0x80 + n % 0x40]
    else [0xF0 + n / 0x4_0000, 0x80 + (n / 0x1000) % 0x40, 0x80 + (n / 0x40) % 0x40, 0x80 + n % 0x40]
  }

  /** `s.encode()` (UTF-8). */
  function Utf8(s: string): (bs: seq<Byte>)
    ensures |s| <= |bs| <= 4 * |s|
  {
    if s == [] then [] else Utf8Char(s[0]) + Utf8(s[1..])
  }
}
