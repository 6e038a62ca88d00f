/** UTF-8 from the other side: the encoder of section 3 of RFC 3629, and why it defines the same texts. */
module Utf8 {
  import opened Truncation

  /** A Unicode scalar value: any code point but a surrogate. */
  type CodePoint = c: int | 0 <= c < 0xD800 || 0xE000 <= c <= 0x10FFFF witness 0

  function Encode(c: CodePoint): string
  {
    if c < 0x80 then [c as char]
    else if c < 0x800 then [(0xC0 + c / 0x40) as char, (0x80 + c % 0x40) as char]
    else if c < 0x1_0000 then
      [(0xE0 + c / 0x1000) as char, (0x80 + c / 0x40 % 0x40) as char, (0x80 + c % 0x40) as char]
    else
      [(0xF0 + c / 0x4_0000) as char, (0x80 + c / 0x1000 % 0x40) as char, (0x80 + c / 0x40 % 0x40) as char,
       (0x80 + c % 0x40) as char]
  }

  function EncodeAll(cs: seq<CodePoint>): string
  {
    if cs == [] then "" else Encode(cs[0]) + EncodeAll(cs[1..])
  }

  /** The decoder takes exactly the bytes of an encoded character, whatever follows. */
  lemma {:induction false} EncodedIsFirst(c: CodePoint, rest: string)
    ensures FirstLength(Encode(c) + rest) == |Encode(c)|
  {
    var e := Encode(c);
    var s := e + rest;
    assert s[0] == e[0];
    assert |e| > 1 ==> s[1] == e[1];
    assert |e| > 2 ==> s[2] == e[2];
    assert |e| > 3 ==> s[3] == e[3];
  }

  /** The bytes that the decoder takes are the encoding of a character. */
  lemma {:induction false} FirstIsEncoded(s: string) returns (c: CodePoint)
    requires FirstLength(s) > 0
    ensures Encode(c) == s[..FirstLength(s)]
  {
    var n, b := FirstLength(s), Byte(s, 0);
    if n == 1 {
      c := b;
    } else if n == 2 {
      c := (b - 0xC0) * 0x40 + (Byte(s, 1) - 0x80);
    } else if n == 3 {
      c := ThreeBytes(b, Byte(s, 1), Byte(s, 2));
    } else {
      c := FourBytes(b, Byte(s, 1), Byte(s, 2), Byte(s, 3));
    }
  }

  lemma {:induction false} ThreeBytes(b0: int, b1: int, b2: int) returns (c: CodePoint)
    requires 0xE0 <= b0 <= 0xEF && Continuation(b1) && Continuation(b2)
    requires (b0 == 0xE0 ==> b1 >= 0xA0) && (b0 == 0xED ==> b1 <= 0x9F)
    ensures Encode(c) == [b0 as char, b1 as char, b2 as char]
  {
    c := (b0 - 0xE0) * 0x1000 + (b1 - 0x80) * 0x40 + (b2 - 0x80);
  }

  lemma {:induction false} FourBytes(b0: int, b1: int, b2: int, b3: int) returns (c: CodePoint)
    requires 0xF0 <= b0 <= 0xF4 && Continuation(b1) && Continuation(b2) && Continuation(b3)
    requires (b0 == 0xF0 ==> b1 >= 0x90) && (b0 == 0xF4 ==> b1 <= 0x8F)
    ensures Encode(c) == [b0 as char, b1 as char, b2 as char, b3 as char]
  {
    c := (b0 - 0xF0) * 0x4_0000 + (b1 - 0x80) * 0x1000 + (b2 - 0x80) * 0x40 + (b3 - 0x80);
    assert c / 0x40 == (b0 - 0xF0) * 0x1000 + (b1 - 0x80) * 0x40 + (b2 - 0x80) && c % 0x40 == b3 - 0x80;
    assert c / 0x1000 == (b0 - 0xF0) * 0x40 + (b1 - 0x80) && c / 0x40 % 0x40 == b2 - 0x80;
    assert c / 0x4_0000 == b0 - 0xF0 && c / 0x1000 % 0x40 == b1 - 0x80;
  }

  lemma {:induction false} EncodedIsValid(cs: seq<CodePoint>)
    ensures ValidUtf8(EncodeAll(cs))
  {
    if cs == [] {
    } else {
      EncodedIsValid(cs[1..]);
      EncodedIsFirst(cs[0], EncodeAll(cs[1..]));
      assert EncodeAll(cs)[|Encode(cs[0])|..] == EncodeAll(cs[1..]);
    }
  }

  lemma {:induction false} ValidIsEncoded(s: string) returns (cs: seq<CodePoint>)
    requires ValidUtf8(s)
    ensures EncodeAll(cs) == s
    decreases |s|
  {
    if s == [] {
      cs := [];
    } else {
      var n := FirstLength(s);
      var c := FirstIsEncoded(s);
      var rest := ValidIsEncoded(s[n..]);
      cs := [c] + rest;
      assert s == s[..n] + s[n..];
    }
  }

  /** The validity test accepts exactly the encodings of sequences of Unicode scalar values. */
  lemma {:induction false} ValidIffEncoded(s: string)
    ensures ValidUtf8(s) <==> exists cs: seq<CodePoint> :: EncodeAll(cs) == s
  {
    if ValidUtf8(s) {
      var cs := ValidIsEncoded(s);
    }
    if cs: seq<CodePoint> :| EncodeAll(cs) == s {
      EncodedIsValid(cs);
    }
  }
}
