/** The bytes of a string: lengths in the program are byte lengths, and hashes are of bytes. */
module Utf8 {

  type byte = b: nat | b < 256

  /** One code point, in one to four bytes. */
  function Point(c: char): (s: seq<byte>)
    ensures 1 <= |s| <= 4
  {
    var n := c as nat;
    if n < 0x80 then [n]
    else if n < 0x800 then [0xC0 + n / 0x40, 0x80 + n % 0x40]
    else if n < 0x10000 then [0xE0 + n / 0x1000, 0x80 + n / 0x40 % 0x40, 0x80 + n % 0x40]
    else [0xF0 + n / 0x40000, 0x80 + n / 0x1000 % 0x40, 0x80 + n / 0x40 % 0x40, 0x80 + n % 0x40]
  }

  function Encode(s: string): (b: seq<byte>)
    ensures |b| >= |s|
  {
    if s == "" then [] else Point(s[0]) + Encode(s[1..])
  }

  /** What a code point's bytes say it is. */
  function Unpoint(b: seq<int>): int
    requires 1 <= |b| <= 4
  {
    if |b| == 1 then b[0]
    else if |b| == 2 then (b[0] - 0xC0) * 0x40 + (b[1] - 0x80)
    else if |b| == 3 then (b[0] - 0xE0) * 0x1000 + (b[1] - 0x80) * 0x40 + (b[2] - 0x80)
    else (b[0] - 0xF0) * 0x40000 + (b[1] - 0x80) * 0x1000 + (b[2] - 0x80) * 0x40 + (b[3] - 0x80)
  }

  lemma {:induction false} SixBits(n: nat)
    ensures n / 0x1000 == n / 0x40 / 0x40 && n / 0x40000 == n / 0x1000 / 0x40
  {
    var q, r := n / 0x40, n % 0x40;
    assert n == 0x1000 * (q / 0x40) + (0x40 * (q % 0x40) + r);
    var p, t := n / 0x1000, n % 0x1000;
    assert n == 0x40000 * (p / 0x40) + (0x1000 * (p % 0x40) + t);
  }

  lemma {:induction false} UnpointPoint(c: char)
    ensures Unpoint(Point(c)) == c as nat
    ensures |Point(c)| == if Point(c)[0] < 0x80 then 1 else if Point(c)[0] < 0xE0 then 2 else if Point(c)[0] < 0xF0 then 3 else 4
  {
    SixBits(c as nat);
  }

  /** Different strings have different bytes. */
  lemma {:induction false} EncodeInjective(s: string, t: string)
    requires Encode(s) == Encode(t)
    ensures s == t
  {
    if s != "" && t != "" {
      var p, q := Point(s[0]), Point(t[0]);
      UnpointPoint(s[0]);
      UnpointPoint(t[0]);
      assert Encode(s)[0] == p[0] && Encode(t)[0] == q[0];
      assert Encode(s)[..|p|] == p && Encode(t)[..|p|] == q;
      assert Encode(s)[|p|..] == Encode(s[1..]) && Encode(t)[|p|..] == Encode(t[1..]);
      EncodeInjective(s[1..], t[1..]);
    }
  }

  predicate Ascii(s: string) {
    forall i :: 0 <= i < |s| ==> s[i] as nat < 0x80
  }

  /** One byte a character. */
  lemma {:induction false} AsciiLength(s: string)
    requires Ascii(s)
    ensures |Encode(s)| == |s|
  {
    if s != "" {
      AsciiLength(s[1..]);
    }
  }

  /** One byte for a code point of seven bits, two for eleven, three for sixteen, four for the rest. */
  function Width(c: char): nat {
    var n := c as nat;
    if n < 0x80 then 1 else if n < 0x800 then 2 else if n < 0x10000 then 3 else 4
  }

  /** The shortest form, as section 3 of RFC 3629 has it, and so the number of bytes of a string. */
  lemma {:induction false} ShortestForm(s: string)
    ensures |Encode(s)| == Bytes(s)
  {
    if s != "" {
      ShortestForm(s[1..]);
    }
  }

  function Bytes(s: string): nat {
    if s == "" then 0 else Width(s[0]) + Bytes(s[1..])
  }
}
