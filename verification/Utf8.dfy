/** UTF-8 as Python encodes and decodes it: one to four bytes a character. */
module Utf8 {
  newtype byte = x: int | 0 <= x < 256

  function EncodeChar(c: char): (b: seq<byte>)
    ensures 1 <= |b| <= 4
  {
    var n := c as int;
    if n < 0x80 then [n as byte]
    else if n < 0x800 then [(0xC0 + n / 0x40) as byte, Tail(n)]
    else if n < 0x10000 then [(0xE0 + n / 0x1000) as byte, Tail(n / 0x40), Tail(n)]
    else [(0xF0 + n / 0x40000) as byte, Tail(n / 0x1000), Tail(n / 0x40), Tail(n)]
  }

  /** A continuation byte with the low six bits of `n`. */
  function Tail(n: int): byte
    requires n >= 0
  {
    (0x80 + n % 0x40) as byte
  }

  function Encode(s: string): seq<byte> {
    if s == "" then [] else EncodeChar(s[0]) + Encode(s[1..])
  }

  /** How many bytes the character that starts with `b` takes. */
  function Width(b: byte): nat {
    if b < 0x80 then 1 else if b < 0xE0 then 2 else if b < 0xF0 then 3 else 4
  }

  /** The number the bytes of one character stand for. */
  function Number(b: seq<byte>): int
    requires 1 <= |b| <= 4
  {
    if |b| == 1 then b[0] as int
    else if |b| == 2 then (b[0] as int - 0xC0) * 0x40 + Low(b[1])
    else if |b| == 3 then (b[0] as int - 0xE0) * 0x1000 + Low(b[1]) * 0x40 + Low(b[2])
    else (b[0] as int - 0xF0) * 0x40000 + Low(b[1]) * 0x1000 + Low(b[2]) * 0x40 + Low(b[3])
  }

  function Low(b: byte): int { b as int - 0x80 }

  predicate IsChar(n: int) { 0 <= n < 0xD800 || 0xE000 <= n < 0x110000 }

  datatype Decoded = Text(s: string) | Malformed

  /** Decoding. It accepts all that encoding produces. */
  function Decode(b: seq<byte>): Decoded
    decreases |b|
  {
    if b == [] then Text("")
    else
      var w := Width(b[0]);
      if w > |b| || !IsChar(Number(b[..w])) then Malformed
      else
        var rest := Decode(b[w..]);
        if rest.Malformed? then Malformed else Text([Number(b[..w]) as char] + rest.s)
  }

  /** Six bits at a time. */
  lemma SixBits(n: int)
    requires n >= 0
    ensures Low(Tail(n)) == n % 0x40 && n == (n / 0x40) * 0x40 + Low(Tail(n))
    ensures n / 0x1000 == n / 0x40 / 0x40 && n / 0x40000 == n / 0x40 / 0x40 / 0x40
  {
  }

  lemma DecodeChar(c: char)
    ensures var b := EncodeChar(c); Width(b[0]) == |b| && Number(b) == c as int
  {
    var n := c as int;
    SixBits(n);
    SixBits(n / 0x40);
    SixBits(n / 0x1000);
    var b := EncodeChar(c);
    if n < 0x80 {
    } else if n < 0x800 {
      assert b[0] as int == 0xC0 + n / 0x40;
    } else if n < 0x10000 {
      assert b[0] as int == 0xE0 + n / 0x1000 && b[1] == Tail(n / 0x40) && b[2] == Tail(n);
    } else {
      assert b[0] as int == 0xF0 + n / 0x40000 && b[1] == Tail(n / 0x1000) && b[2] == Tail(n / 0x40) && b[3] == Tail(n);
    }
  }

  lemma {:induction false} DecodeEncode(s: string)
    ensures Decode(Encode(s)) == Text(s)
  {
    if s != "" {
      var b, rest := EncodeChar(s[0]), Encode(s[1..]);
      DecodeChar(s[0]);
      DecodeEncode(s[1..]);
      assert (b + rest)[..|b|] == b && (b + rest)[|b|..] == rest;
      assert s == [s[0]] + s[1..];
    }
  }

  lemma {:induction false} EncodeConcat(a: string, b: string)
    ensures Encode(a + b) == Encode(a) + Encode(b)
  {
    if a == "" {
      assert a + b == b;
    } else {
      assert (a + b)[1..] == a[1..] + b;
      EncodeConcat(a[1..], b);
    }
  }
}
