/** UTF-8, as far as writing Go strings to a byte buffer needs it. */
module Utf8 {
  type Byte = b: int | 0 <= b < 256

  function EncodeChar(c: char): (bytes: seq<Byte>)
    ensures 1 <= |bytes| <= 4
  {
    var n := c as int;
    if n < 0x80 then [n]
    else if n < 0x800 then [0xC0 + n / 0x40, 0x80 + n % 0x40]
    else if n < 0x1_0000 then [0xE0 + n / 0x1000, 0x80 + n / 0x40 % 0x40, 0x80 + n % 0x40]
    else [0xF0 + n / 0x4_0000, 0x80 + n / 0x1000 % 0x40, 0x80 + n / 0x40 % 0x40, 0x80 + n % 0x40]
  }

  function Encode(s: string): seq<Byte> {
    if s == [] then [] else EncodeChar(s[0]) + Encode(s[1..])
  }

  lemma {:induction false} EncodeConcat(a: string, b: string)
    ensures Encode(a + b) == Encode(a) + Encode(b)
  {
    if a == [] {
      assert a + b == b;
    } else {
      assert (a + b)[1..] == a[1..] + b;
      EncodeConcat(a[1..], b);
    }
  }

  /** Each length begins at its own code point, the leading byte tells it, and every other byte holds
      six bits; so the bytes are the shortest form. */
  lemma CharShape(c: char)
    ensures var n: int, b: seq<int> := c as int, EncodeChar(c);
            && |b| == (if n < 0x80 then 1 else if n < 0x800 then 2 else if n < 0x1_0000 then 3 else 4)
            && (forall i :: 1 <= i < |b| ==> 0x80 <= b[i] < 0xC0)
            && match |b|
               case 1 => b[0] == n
               case 2 => 0xC2 <= b[0] < 0xE0 && n == (b[0] - 0xC0) * 0x40 + (b[1] - 0x80)
               case 3 => 0xE0 <= b[0] < 0xF0 && n == ((b[0] - 0xE0) * 0x40 + (b[1] - 0x80)) * 0x40 + (b[2] - 0x80)
               case _ => 0xF0 <= b[0] < 0xF5 &&
                         n == (((b[0] - 0xF0) * 0x40 + (b[1] - 0x80)) * 0x40 + (b[2] - 0x80)) * 0x40 + (b[3] - 0x80)
  {
    var n := c as int;
    assert n / 0x1000 == n / 0x4_0000 * 0x40 + n / 0x1000 % 0x40;
    assert n / 0x40 == n / 0x1000 * 0x40 + n / 0x40 % 0x40;
    assert n == n / 0x40 * 0x40 + n % 0x40;
  }

  /** The code point at the front of well-formed bytes, and its width. */
  function DecodeFirst(bytes: seq<int>): (int, nat)
    requires bytes != []
  {
    var n := |bytes|;
    if bytes[0] < 0x80 || n < 2 then (bytes[0], 1)
    else if bytes[0] < 0xE0 || n < 3 then ((bytes[0] - 0xC0) * 0x40 + bytes[1] - 0x80, 2)
    else if bytes[0] < 0xF0 || n < 4 then ((bytes[0] - 0xE0) * 0x1000 + (bytes[1] - 0x80) * 0x40 + bytes[2] - 0x80, 3)
    else ((bytes[0] - 0xF0) * 0x4_0000 + (bytes[1] - 0x80) * 0x1000 + (bytes[2] - 0x80) * 0x40 + bytes[3] - 0x80, 4)
  }

  lemma DecodeUndoesEncode(c: char, rest: seq<Byte>)
    ensures DecodeFirst(EncodeChar(c) + rest) == (c as int, |EncodeChar(c)|)
  {
    var n, bytes := c as int, EncodeChar(c) + rest;
    assert forall i :: 0 <= i < |EncodeChar(c)| ==> bytes[i] == EncodeChar(c)[i];
    assert n / 0x1000 == n / 0x4_0000 * 0x40 + n / 0x1000 % 0x40;
    assert n / 0x40 == n / 0x1000 * 0x40 + n / 0x40 % 0x40;
    assert n == n / 0x40 * 0x40 + n % 0x40;
  }

  /** Different strings have different bytes. */
  lemma {:induction false} EncodeInjective(a: string, b: string)
    requires Encode(a) == Encode(b)
    ensures a == b
  {
    if a != [] && b != [] {
      DecodeUndoesEncode(a[0], Encode(a[1..]));
      DecodeUndoesEncode(b[0], Encode(b[1..]));
      assert a[0] == b[0];
      assert Encode(a)[|EncodeChar(a[0])|..] == Encode(a[1..]) && Encode(b)[|EncodeChar(b[0])|..] == Encode(b[1..]);
      EncodeInjective(a[1..], b[1..]);
      assert a == [a[0]] + a[1..] && b == [b[0]] + b[1..];
    }
  }
}
