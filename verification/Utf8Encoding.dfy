/** UTF-8 as it is written (section 3 of RFC 3629): decoding it gives the text back, and its length is the text's. */
module Utf8Encoding {
  import opened Text
  import opened OutputBound
  import opened Decoding

  /** A character of Unicode: no surrogate. */
  type Character = c: int | 0 <= c < 0xD800 || 0xE000 <= c < 0x11_0000

  function Encode(c: Character): (bytes: seq<Byte>)
    ensures 1 <= |bytes| <= 4
  {
    if c < 0x80 then [c]
    else if c < 0x800 then [0xC0 + c / 0x40, Continuing(c)]
    else if c < 0x1_0000 then [0xE0 + c / 0x1000, Continuing(c / 0x40), Continuing(c)]
    else [0xF0 + c / 0x4_0000, Continuing(c / 0x1000), Continuing(c / 0x40), Continuing(c)]
  }

  /** The last six bits, in a byte that goes on. */
  function Continuing(bits: nat): Byte { 0x80 + bits % 0x40 }

  /** A character in UTF-16: itself, or a surrogate pair. */
  function Utf16(c: Character): Text {
    if c < 0x1_0000 then [c] else [0xD800 + (c - 0x1_0000) / 0x400, 0xDC00 + (c - 0x1_0000) % 0x400]
  }

  function EncodeAll(cs: seq<Character>): seq<Byte> {
    if cs == [] then [] else Encode(cs[0]) + EncodeAll(cs[1..])
  }

  function TextOf(cs: seq<Character>): Text {
    if cs == [] then [] else Utf16(cs[0]) + TextOf(cs[1..])
  }

  lemma SixBits(high: nat, low: nat)
    requires low < 0x40
    ensures Decoding.Low(high, 0x80 + low) == high * 0x40 + low
  {
    assert (0x80 + low) % 0x40 == low;
  }

  lemma Unshifts(c: nat)
    ensures c / 0x40 * 0x40 + c % 0x40 == c
    ensures c / 0x1000 == c / 0x40 / 0x40 && c / 0x4_0000 == c / 0x40 / 0x40 / 0x40
  {
  }

  lemma LeadBits(c: Character)
    ensures c < 0x800 ==> (0xC0 + c / 0x40) % 0x20 == c / 0x40
    ensures c < 0x1_0000 ==> (0xE0 + c / 0x1000) % 0x10 == c / 0x1000
    ensures (0xF0 + c / 0x4_0000) % 0x08 == c / 0x4_0000
  {
  }

  /** Six bits taken off and put back. */
  lemma PutBack(bits: nat)
    ensures Decoding.Low(bits / 0x40, Continuing(bits)) == bits
  {
    SixBits(bits / 0x40, bits % 0x40);
    Unshifts(bits);
    hide Decoding.Low;
  }

  lemma TwoBytes(c: Character)
    requires 0x80 <= c < 0x800
    ensures Scalar(Encode(c)) == c
  {
    LeadBits(c);
    PutBack(c);
    hide Decoding.Low, Continuing;
    var a: int := Encode(c)[0];
    assert Scalar(Encode(c)) == Decoding.Low(a % 0x20, Encode(c)[1]);
    assert a % 0x20 == c / 0x40 && Encode(c)[1] == Continuing(c);
    hide Scalar, Encode;
  }

  lemma ThreeBytes(c: Character)
    requires 0x800 <= c < 0x1_0000
    ensures Scalar(Encode(c)) == c
  {
    LeadBits(c);
    Unshifts(c);
    PutBack(c);
    PutBack(c / 0x40);
    hide Decoding.Low, Continuing;
    var a: int := Encode(c)[0];
    assert Scalar(Encode(c)) == Decoding.Low(Decoding.Low(a % 0x10, Encode(c)[1]), Encode(c)[2]);
  }

  lemma FourBytes(c: Character)
    requires 0x1_0000 <= c
    ensures Scalar(Encode(c)) == c
  {
    LeadBits(c);
    Unshifts(c);
    PutBack(c);
    PutBack(c / 0x40);
    PutBack(c / 0x40 / 0x40);
    hide Decoding.Low, Continuing;
    var a: int := Encode(c)[0];
    assert Scalar(Encode(c))
        == Decoding.Low(Decoding.Low(Decoding.Low(a % 0x08, Encode(c)[1]), Encode(c)[2]), Encode(c)[3]);
  }

  lemma ScalarIs(c: Character)
    ensures Scalar(Encode(c)) == c && Units(c) == Utf16(c)
  {
    if 0x1_0000 <= c { FourBytes(c); } else if 0x800 <= c { ThreeBytes(c); } else if 0x80 <= c { TwoBytes(c); }
  }

  lemma LeadNeeds(c: Character)
    ensures var e := Encode(c); Needed(e[0]) == |e|
    ensures forall k :: 1 <= k < |Encode(c)| ==> Allowed(Encode(c)[0], k, Encode(c)[k])
  {
  }

  lemma {:induction false} FittingIs(c: Character, more: seq<Byte>, k: nat)
    requires 1 <= k <= |Encode(c)|
    ensures Fitting(Encode(c) + more, k) == |Encode(c)|
    decreases |Encode(c)| - k
  {
    LeadNeeds(c);
    hide Encode, Needed, Allowed;
    if k < |Encode(c)| { FittingIs(c, more, k + 1); }
  }

  lemma FirstIs(c: Character, more: seq<Byte>)
    ensures Decoding.First(Encode(c) + more) == (Utf16(c), |Encode(c)|)
  {
    FittingIs(c, more, 1);
    LeadNeeds(c);
    ScalarIs(c);
    hide Encode, Needed, Allowed, Units, Scalar, Utf16;
    var e := Encode(c);
    assert (e + more)[..|e|] == e;
  }

  /** What UTF-8 writes is decoded to the text it was written from, with nothing held back. */
  lemma {:induction false} DecodesBack(cs: seq<Character>)
    ensures Utf8Text(EncodeAll(cs)) == TextOf(cs) && Utf8Held(EncodeAll(cs)) == 0
    decreases |cs|
  {
    hide Encode, Utf16, Decoding.First;
    if cs != [] {
      var e, rest := Encode(cs[0]), EncodeAll(cs[1..]);
      DecodesBack(cs[1..]);
      FirstIs(cs[0], rest);
      assert (e + rest)[|e|..] == rest;
    }
  }

  /** The length a text is measured by is that of its UTF-8. */
  lemma {:induction false} BytesWritten(cs: seq<Character>)
    ensures ByteLength(TextOf(cs)) == |EncodeAll(cs)|
    decreases |cs|
  {
    if cs != [] {
      BytesWritten(cs[1..]);
    }
  }
}
