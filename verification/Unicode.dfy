/** What well-formed UTF-8 is, from the other side: the encodings of Unicode
    scalar values (section 3 of RFC 3629). */
module Unicode {
  import opened Bytes

  predicate Scalar(c: nat) {
    c < 0xD800 || 0xE000 <= c <= 0x10FFFF
  }

  /** One character: the fewest bytes that hold its bits. */
  function EncodeChar(c: nat): (r: seq<byte>)
    requires Scalar(c)
    ensures r != []
  {
    if c < 0x80 then [c]
    else if c < 0x800 then [0xC0 + c / 64, 0x80 + c % 64]
    else if c < 0x10000 then [0xE0 + c / 64 / 64, 0x80 + c / 64 % 64, 0x80 + c % 64]
    else [0xF0 + c / 64 / 64 / 64, 0x80 + c / 64 / 64 % 64, 0x80 + c / 64 % 64, 0x80 + c % 64]
  }

  predicate AllScalar(cs: seq<nat>) {
    forall i :: 0 <= i < |cs| ==> Scalar(cs[i])
  }

  function EncodeText(cs: seq<nat>): (r: seq<byte>)
    requires AllScalar(cs)
  {
    if cs == [] then [] else EncodeChar(cs[0]) + EncodeText(cs[1..])
  }

  lemma Digits64(a: nat, b: nat)
    requires b < 64
    ensures (a * 64 + b) / 64 == a && (a * 64 + b) % 64 == b
  {
  }

  lemma TwoBytes(s: seq<byte>) returns (c: nat)
    requires CharLen(s) == 2
    ensures Scalar(c) && EncodeChar(c) == s[..2]
  {
    var b0: int, b1: int := s[0] - 0xC0, s[1] - 0x80;
    c := b0 * 64 + b1;
    Digits64(b0, b1);
  }

  lemma ThreeBytes(s: seq<byte>) returns (c: nat)
    requires CharLen(s) == 3
    ensures Scalar(c) && EncodeChar(c) == s[..3]
  {
    var b0: int, b1: int, b2: int := s[0] - 0xE0, s[1] - 0x80, s[2] - 0x80;
    c := (b0 * 64 + b1) * 64 + b2;
    Digits64(b0, b1);
    Digits64(b0 * 64 + b1, b2);
  }

  lemma FourBytes(s: seq<byte>) returns (c: nat)
    requires CharLen(s) == 4
    ensures Scalar(c) && EncodeChar(c) == s[..4]
  {
    var b0: int, b1: int, b2: int, b3: int := s[0] - 0xF0, s[1] - 0x80, s[2] - 0x80, s[3] - 0x80;
    var a := b0 * 64 + b1;
    var b := a * 64 + b2;
    c := b * 64 + b3;
    Digits64(b0, b1);
    Digits64(a, b2);
    Digits64(b, b3);
  }

  /** What is taken for a character encodes one. */
  lemma CharOf(s: seq<byte>) returns (c: nat)
    requires CharLen(s) > 0
    ensures Scalar(c) && EncodeChar(c) == s[..CharLen(s)]
  {
    hide EncodeChar;
    if CharLen(s) == 1 {
      c := s[0];
      assert EncodeChar(c) == [c] by {
        OneByte(c);
      }
      assert s[..1] == [c];
    } else if CharLen(s) == 2 {
      c := TwoBytes(s);
    } else if CharLen(s) == 3 {
      c := ThreeBytes(s);
    } else {
      c := FourBytes(s);
    }
  }

  lemma OneByte(c: nat)
    requires c < 0x80
    ensures EncodeChar(c) == [c]
  {
  }

  /** An encoded character is taken for one, whatever follows. */
  lemma EncodedLen(c: nat, rest: seq<byte>)
    requires Scalar(c)
    ensures CharLen(EncodeChar(c) + rest) == |EncodeChar(c)|
  {
  }

  lemma {:induction false} EncodedIsValid(cs: seq<nat>)
    requires AllScalar(cs)
    ensures ValidUtf8(EncodeText(cs))
  {
    if cs != [] {
      var first, rest := EncodeChar(cs[0]), EncodeText(cs[1..]);
      EncodedIsValid(cs[1..]);
      EncodedLen(cs[0], rest);
      hide EncodeChar, CharLen;
      assert (first + rest)[|first|..] == rest;
    }
  }

  lemma EncodedCons(c: nat, cs: seq<nat>)
    requires Scalar(c) && AllScalar(cs)
    ensures AllScalar([c] + cs) && EncodeText([c] + cs) == EncodeChar(c) + EncodeText(cs)
  {
    hide EncodeChar, Scalar;
    assert ([c] + cs)[1..] == cs;
  }

  lemma {:induction false} ValidIsEncoded(s: seq<byte>) returns (cs: seq<nat>)
    requires ValidUtf8(s)
    ensures AllScalar(cs) && EncodeText(cs) == s
    decreases |s|
  {
    hide EncodeChar, CharLen, Scalar;
    if s == [] {
      cs := [];
    } else {
      var n := CharLen(s);
      var c := CharOf(s);
      var rest := ValidIsEncoded(s[n..]);
      hide EncodeText, AllScalar, ValidUtf8;
      EncodedCons(c, rest);
      cs := [c] + rest;
      assert s == s[..n] + s[n..];
    }
  }

  /** The byte strings taken for text are exactly the encodings of characters. */
  lemma ValidIff(s: seq<byte>)
    ensures ValidUtf8(s) <==> exists cs: seq<nat> :: AllScalar(cs) && EncodeText(cs) == s
  {
    if ValidUtf8(s) {
      var cs := ValidIsEncoded(s);
    }
    if cs: seq<nat> :| AllScalar(cs) && EncodeText(cs) == s {
      EncodedIsValid(cs);
    }
  }
}
