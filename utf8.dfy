/** Bytes and UTF-8: the well-formedness rule of section 4 of RFC 3629 (the
    rule Go's utf8.Valid implements) and the encoder that turns a Dafny
    string into the bytes a Go string holds. */
module Utf8 {

  newtype byte = b: int | 0 <= b < 256

  /** UTF8-tail = %x80-BF */
  predicate IsTail(b: byte) {
    0x80 <= b <= 0xBF
  }

  /** The second byte of a three-byte sequence: E0 needs A0-BF (no overlong
      forms), ED needs 80-9F (no surrogates), E1-EC and EE-EF take any tail. */
  predicate SecondOfThree(b0: byte, b1: byte) {
    if b0 == 0xE0 then 0xA0 <= b1 <= 0xBF
    else if b0 == 0xED then 0x80 <= b1 <= 0x9F
    else IsTail(b1)
  }

  /** The second byte of a four-byte sequence: F0 needs 90-BF (no overlong
      forms), F4 needs 80-8F (nothing above U+10FFFF), F1-F3 take any tail. */
  predicate SecondOfFour(b0: byte, b1: byte) {
    if b0 == 0xF0 then 0x90 <= b1 <= 0xBF
    else if b0 == 0xF4 then 0x80 <= b1 <= 0x8F
    else IsTail(b1)
  }

  /** The length of the UTF8-char that starts s, or 0 when s does not start
      with one. */
  function LeadWidth(s: seq<byte>): (n: nat)
    ensures n <= 4 && n <= |s|
    ensures s == [] ==> n == 0
  {
    if s == [] then 0
    else if s[0] <= 0x7F then 1
    else if 0xC2 <= s[0] <= 0xDF then
      if |s| >= 2 && IsTail(s[1]) then 2 else 0
    else if 0xE0 <= s[0] <= 0xEF then
      if |s| >= 3 && SecondOfThree(s[0], s[1]) && IsTail(s[2]) then 3 else 0
    else if 0xF0 <= s[0] <= 0xF4 then
      if |s| >= 4 && SecondOfFour(s[0], s[1]) && IsTail(s[2]) && IsTail(s[3]) then 4 else 0
    else 0
  }

  /** UTF8-octets = *( UTF8-char ) */
  predicate Valid(s: seq<byte>)
    decreases |s|
  {
    s == [] || (LeadWidth(s) > 0 && Valid(s[LeadWidth(s)..]))
  }

  /** The two-byte form, for U+0080 to U+07FF: 110xxxxx 10xxxxxx. */
  function EncodeTwo(n: int): (r: seq<byte>)
    requires 0x80 <= n < 0x800
    ensures |r| == 2 && LeadWidth(r) == 2
  {
    var hi, lo := n / 64, n % 64;
    assert 2 <= hi < 32 && 0 <= lo < 64;
    [(0xC0 + hi) as byte, (0x80 + lo) as byte]
  }

  /** The three-byte form, for U+0800 to U+FFFF without the surrogates:
      1110xxxx 10xxxxxx 10xxxxxx. */
  function EncodeThree(n: int): (r: seq<byte>)
    requires 0x800 <= n < 0x1_0000 && !(0xD800 <= n < 0xE000)
    ensures |r| == 3 && LeadWidth(r) == 3
  {
    var top, mid, lo := n / 4096, (n / 64) % 64, n % 64;
    assert 0 <= top < 16 && 0 <= mid < 64 && 0 <= lo < 64;
    assert n == 4096 * top + 64 * mid + lo;
    assert top == 0 ==> 32 <= mid;
    assert top == 13 ==> mid < 32;
    [(0xE0 + top) as byte, (0x80 + mid) as byte, (0x80 + lo) as byte]
  }

  /** The four-byte form, for U+10000 to U+10FFFF:
      11110xxx 10xxxxxx 10xxxxxx 10xxxxxx. */
  function EncodeFour(n: int): (r: seq<byte>)
    requires 0x1_0000 <= n < 0x11_0000
    ensures |r| == 4 && LeadWidth(r) == 4
  {
    var top, upper := n / 262144, (n / 4096) % 64;
    var mid, lo := (n / 64) % 64, n % 64;
    assert 0 <= top < 5 && 0 <= upper < 64 && 0 <= mid < 64 && 0 <= lo < 64;
    assert n / 4096 == 64 * top + upper;
    assert top == 0 ==> 16 <= upper;
    assert top == 4 ==> upper < 16;
    [(0xF0 + top) as byte, (0x80 + upper) as byte, (0x80 + mid) as byte, (0x80 + lo) as byte]
  }

  /** The UTF-8 encoding of one Unicode scalar value. */
  function EncodeChar(c: char): (r: seq<byte>)
    ensures 1 <= |r| <= 4
    ensures LeadWidth(r) == |r|
  {
    var n := c as int;
    if n < 0x80 then [n as byte]
    else if n < 0x800 then EncodeTwo(n)
    else if n < 0x1_0000 then EncodeThree(n)
    else EncodeFour(n)
  }

  /** The bytes of a Go string whose text is s. */
  function Encode(s: string): (r: seq<byte>)
    ensures |r| >= |s|
  {
    if s == [] then [] else EncodeChar(s[0]) + Encode(s[1..])
  }

  /** Appending bytes after a complete character does not change it. */
  lemma LeadWidthExtends(a: seq<byte>, b: seq<byte>)
    requires LeadWidth(a) > 0
    ensures LeadWidth(a + b) == LeadWidth(a)
  {
    var n := LeadWidth(a);
    assert forall k :: 0 <= k < n ==> (a + b)[k] == a[k];
  }

  /** Well-formed byte strings are closed under concatenation. */
  lemma {:induction false} ValidConcat(a: seq<byte>, b: seq<byte>)
    requires Valid(a) && Valid(b)
    ensures Valid(a + b)
    decreases |a|
  {
    if a == [] {
      assert a + b == b;
    } else {
      var n := LeadWidth(a);
      LeadWidthExtends(a, b);
      ValidConcat(a[n..], b);
      assert (a + b)[n..] == a[n..] + b;
    }
  }

  /** Encoding distributes over concatenation. */
  lemma {:induction false} EncodeConcat(a: string, b: string)
    ensures Encode(a + b) == Encode(a) + Encode(b)
  {
    if a == [] {
      assert a + b == b;
    } else {
      assert (a + b)[1..] == a[1..] + b;
      EncodeConcat(a[1..], b);
    }
  }

  /** Every encoded string is well-formed UTF-8. */
  lemma {:induction false} EncodeValid(s: string)
    ensures Valid(Encode(s))
  {
    if s != [] {
      var e := EncodeChar(s[0]);
      EncodeValid(s[1..]);
      LeadWidthExtends(e, Encode(s[1..]));
      assert (e + Encode(s[1..]))[|e|..] == Encode(s[1..]);
    }
  }

  /** An ASCII string encodes to its own character codes. */
  lemma {:induction false} EncodeAscii(s: string)
    requires forall i :: 0 <= i < |s| ==> s[i] < '\U{0080}'
    ensures |Encode(s)| == |s|
    ensures forall i :: 0 <= i < |s| ==> Encode(s)[i] as int == s[i] as int
  {
    if s != [] {
      EncodeAscii(s[1..]);
    }
  }

  /** A character takes at most four bytes. */
  lemma {:induction false} EncodeLength(s: string)
    ensures |Encode(s)| <= 4 * |s|
  {
    if s != [] {
      EncodeLength(s[1..]);
    }
  }

  /** The encoding holds a zero byte exactly where the text holds U+0000:
      every byte of a multi-byte sequence is at least 0x80. */
  lemma {:induction false} ZeroInEncode(s: string)
    ensures 0 in Encode(s) <==> '\U{0000}' in s
  {
    if s != [] {
      assert s == [s[0]] + s[1..];
      ZeroInEncode(s[1..]);
    }
  }

  /** Regrouping appended byte strings. */
  lemma Associative(a: seq<byte>, b: seq<byte>, c: seq<byte>)
    ensures (a + b) + c == a + (b + c)
  {
  }
}
