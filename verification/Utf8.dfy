/** UTF-8 as unicode/utf8 validates it, on strings whose characters are bytes, and as it encodes text. */
module Utf8 {
  predicate Byte(s: string, i: int, low: char, high: char) {
    0 <= i < |s| && low <= s[i] <= high
  }

  /** The length of the well-formed sequence a string begins with, by the first-byte table; 0 if it begins with none. */
  function RuneLength(s: string): (n: nat)
    ensures n <= |s| && n <= 4
  {
    if Byte(s, 0, '\U{0}', '\U{7f}') then 1
    else if Byte(s, 0, '\U{c2}', '\U{df}') && Byte(s, 1, '\U{80}', '\U{bf}') then 2
    else if !Byte(s, 2, '\U{80}', '\U{bf}') then 0
    else if Byte(s, 0, '\U{e0}', '\U{e0}') && Byte(s, 1, '\U{a0}', '\U{bf}') then 3
    else if Byte(s, 0, '\U{ed}', '\U{ed}') && Byte(s, 1, '\U{80}', '\U{9f}') then 3
    else if Byte(s, 0, '\U{e1}', '\U{ef}') && s[0] != '\U{ed}' && Byte(s, 1, '\U{80}', '\U{bf}') then 3
    else if !Byte(s, 3, '\U{80}', '\U{bf}') then 0
    else if Byte(s, 0, '\U{f0}', '\U{f0}') && Byte(s, 1, '\U{90}', '\U{bf}') then 4
    else if Byte(s, 0, '\U{f1}', '\U{f3}') && Byte(s, 1, '\U{80}', '\U{bf}') then 4
    else if Byte(s, 0, '\U{f4}', '\U{f4}') && Byte(s, 1, '\U{80}', '\U{8f}') then 4
    else 0
  }

  predicate ValidUtf8(s: string)
    decreases |s|
  {
    s == "" || (RuneLength(s) > 0 && ValidUtf8(s[RuneLength(s)..]))
  }

  /** The bytes of one character. */
  function EncodeRune(c: char): (s: string)
    ensures 1 <= |s| <= 4
  {
    var v := c as int;
    if v < 0x80 then [c]
    else if v < 0x800 then [(0xc0 + v / 64) as char, (0x80 + v % 64) as char]
    else if v < 0x1_0000 then [(0xe0 + v / 4096) as char, (0x80 + v / 64 % 64) as char, (0x80 + v % 64) as char]
    else [(0xf0 + v / 262144) as char, (0x80 + v / 4096 % 64) as char, (0x80 + v / 64 % 64) as char, (0x80 + v % 64) as char]
  }

  function EncodeText(text: string): string {
    if text == "" then "" else EncodeRune(text[0]) + EncodeText(text[1..])
  }

  lemma RuneIsWellFormed(c: char, rest: string)
    ensures RuneLength(EncodeRune(c) + rest) == |EncodeRune(c)|
  {
  }

  /** The character a well-formed string begins with. */
  function DecodeRune(s: string): (c: char)
    requires RuneLength(s) > 0
    ensures EncodeRune(c) == s[..RuneLength(s)]
  {
    if RuneLength(s) == 1 then s[0]
    else if RuneLength(s) == 2 then Two(s[0], s[1])
    else if RuneLength(s) == 3 then Three(s[0], s[1], s[2])
    else Four(s[0], s[1], s[2], s[3])
  }

  function Two(a: char, b: char): (c: char)
    requires RuneLength([a, b]) == 2
    ensures EncodeRune(c) == [a, b]
  {
    ((a as int - 0xc0) * 64 + (b as int - 0x80)) as char
  }

  function Three(a: char, b: char, d: char): (c: char)
    requires RuneLength([a, b, d]) == 3
    ensures EncodeRune(c) == [a, b, d]
  {
    ((a as int - 0xe0) * 4096 + (b as int - 0x80) * 64 + (d as int - 0x80)) as char
  }

  lemma Digits(x: int, y: int, z: int, w: int)
    requires 0 <= y < 64 && 0 <= z < 64 && 0 <= w < 64
    ensures var v := x * 262144 + y * 4096 + z * 64 + w;
            v / 262144 == x && v / 4096 % 64 == y && v / 64 % 64 == z && v % 64 == w
  {
    var v := x * 262144 + y * 4096 + z * 64 + w;
    assert v / 64 == x * 4096 + y * 64 + z;
    assert v / 4096 == x * 64 + y;
  }

  /** What the table admits as a sequence of four bytes. */
  lemma FourBytes(a: char, b: char, d: char, e: char)
    requires RuneLength([a, b, d, e]) == 4
    ensures 0x80 <= b as int <= 0xbf && 0x80 <= d as int <= 0xbf && 0x80 <= e as int <= 0xbf && 0xf0 <= a as int <= 0xf4
    ensures 0x10 <= (a as int - 0xf0) * 64 + (b as int - 0x80) <= 0x10f
  {
  }

  function Four(a: char, b: char, d: char, e: char): (c: char)
    requires RuneLength([a, b, d, e]) == 4
    ensures EncodeRune(c) == [a, b, d, e]
  {
    hide RuneLength;
    FourBytes(a, b, d, e);
    var x, y, z, w := a as int - 0xf0, b as int - 0x80, d as int - 0x80, e as int - 0x80;
    Digits(x, y, z, w);
    (x * 262144 + y * 4096 + z * 64 + w) as char
  }

  function DecodeText(s: string): (text: string)
    requires ValidUtf8(s)
    ensures EncodeText(text) == s
    decreases |s|
  {
    if s == "" then ""
    else
      var n := RuneLength(s);
      assert s[..n] + s[n..] == s;
      [DecodeRune(s)] + DecodeText(s[n..])
  }

  lemma {:induction false} EncodedIsValid(text: string)
    ensures ValidUtf8(EncodeText(text))
  {
    hide RuneLength, EncodeRune;
    if text != "" {
      var first, rest := EncodeRune(text[0]), EncodeText(text[1..]);
      RuneIsWellFormed(text[0], rest);
      EncodedIsValid(text[1..]);
      assert (first + rest)[|first|..] == rest;
    }
  }

  /** The valid byte strings are exactly the encodings of texts. */
  lemma ValidIffEncoded(s: string)
    ensures ValidUtf8(s) <==> exists text :: EncodeText(text) == s
  {
    hide RuneLength, EncodeRune, EncodeText, ValidUtf8;
    if ValidUtf8(s) {
      assert EncodeText(DecodeText(s)) == s;
    }
    if text :| EncodeText(text) == s {
      EncodedIsValid(text);
    }
  }
}
