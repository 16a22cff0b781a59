/** Small helpers shared by the core: an Option type, bytes, UTF-8 encoding
    and the string tests `str.startswith` / `str.endswith`. */
module Wrappers {
  datatype Option<+T> = None | Some(value: T)
}

module Text {

  /** One unsigned byte (NumPy `uint8`, a Python `bytes` element). */
  type byte = x: int | 0 <= x < 256

  /** `s.startswith(p)`: `p` is a prefix of `s`. */
  predicate StartsWith(s: string, p: string)
  {
    |p| <= |s| && s[..|p|] == p
  }

  /** `s.endswith(q)`: `q` is a suffix of `s`. */
  predicate EndsWith(s: string, q: string)
  {
    |q| <= |s| && s[|s| - |q|..] == q
  }

  /** `t` occurs as a contiguous piece of `s`. */
  ghost predicate IsSubstring(t: string, s: string)
  {
    exists i :: 0 <= i <= |s| && StartsWith(s[i..], t)
  }

  /** The UTF-8 encoding of one Unicode scalar value (`str.encode("utf-8")`
      on a single character), following section 3 of RFC 3629. */
  function EncodeChar(c: char): (r: seq<byte>)
    ensures 1 <= |r| <= 4
    ensures |r| == 1 <==> c as int < 0x80
    ensures |r| == 2 <==> 0x80 <= c as int < 0x800
    ensures |r| == 3 <==> 0x800 <= c as int < 0x10000
    ensures |r| == 4 <==> 0x10000 <= c as int
    ensures |r| == 1 ==> r[0] == c as int
    ensures |r| == 2 ==> 0xC2 <= r[0] <= 0xDF
    ensures |r| == 3 ==> 0xE0 <= r[0] <= 0xEF
    ensures |r| == 4 ==> 0xF0 <= r[0] <= 0xF4
    ensures forall k :: 1 <= k < |r| ==> 0x80 <= r[k] <= 0xBF
    ensures c as int == DecodeBytes(r)
  {
    var cp := c as int;
    if cp < 0x80 then
      [cp]
    else if cp < 0x800 then
      var b0, b1 := cp / 64, cp % 64;
      assert cp == b0 * 64 + b1 && 2 <= b0 < 32;
      [0xC0 + b0, 0x80 + b1]
    else if cp < 0x10000 then
      var b0, m := cp / 4096, cp % 4096;
      var b1, b2 := m / 64, m % 64;
      assert cp == b0 * 4096 + m && m == b1 * 64 + b2 && b0 < 16;
      [0xE0 + b0, 0x80 + b1, 0x80 + b2]
    else
      var b0, m := cp / 262144, cp % 262144;
      var b1, n := m / 4096, m % 4096;
      var b2, b3 := n / 64, n % 64;
      assert cp == b0 * 262144 + m && m == b1 * 4096 + n && n == b2 * 64 + b3 && b0 <= 4;
      [0xF0 + b0, 0x80 + b1, 0x80 + b2, 0x80 + b3]
  }

  /** The code point a well-formed UTF-8 sequence of one to four bytes
      stands for: the payload bits of the lead byte followed by six bits per
      continuation byte (section 3 of RFC 3629). */
  function DecodeBytes(r: seq<byte>): int
  {
    if |r| == 1 then r[0]
    else if |r| == 2 then (r[0] as int - 0xC0) * 64 + (r[1] as int - 0x80)
    else if |r| == 3 then (r[0] as int - 0xE0) * 4096 + (r[1] as int - 0x80) * 64 + (r[2] as int - 0x80)
    else if |r| == 4 then (r[0] as int - 0xF0) * 262144 + (r[1] as int - 0x80) * 4096 + (r[2] as int - 0x80) * 64 + (r[3] as int - 0x80)
    else -1
  }

  /** `s.encode("utf-8")`: the concatenation of the encodings of its characters. */
  function Utf8(s: string): (r: seq<byte>)
    ensures |s| <= |r| <= 4 * |s|
  {
    if s == [] then [] else EncodeChar(s[0]) + Utf8(s[1..])
  }

  /** Encoding a concatenation is concatenating the encodings. */
  lemma {:induction false} Utf8Append(s: string, t: string)
    ensures Utf8(s + t) == Utf8(s) + Utf8(t)
  {
    if s == [] {
      assert s + t == t;
    } else {
      assert (s + t)[1..] == s[1..] + t;
      Utf8Append(s[1..], t);
    }
  }

  /** An ASCII string encodes to one byte per character, each its code. */
  lemma {:induction false} Utf8Ascii(s: string)
    requires forall k :: 0 <= k < |s| ==> s[k] as int < 0x80
    ensures |Utf8(s)| == |s|
    ensures forall k :: 0 <= k < |s| ==> Utf8(s)[k] == s[k] as int
  {
    if s != [] {
      Utf8Ascii(s[1..]);
    }
  }
}
